/** Removal of terminal escape sequences (asm_cleanup/transport/text.py). */
module Ansi {
  import opened Sequences
  import opened Text

  const ESC := '\U{1B}'

  /** `[@-Z\\-_]`: the second character of a two-character sequence. */
  predicate IsShortFinal(c: char) {
    '@' <= c <= 'Z' || '\\' <= c <= '_'
  }

  /** `[0-?]` */
  predicate IsParameter(c: char) {
    '0' <= c <= '?'
  }

  /** `[ -/]` */
  predicate IsIntermediate(c: char) {
    ' ' <= c <= '/'
  }

  /** `[@-~]` */
  predicate IsFinal(c: char) {
    '@' <= c <= '~'
  }

  /** The classes by code point: parameter, intermediate and final bytes of a control sequence are those of ECMA-48,
      section 5.4, and the short finals are its C1 range without the bracket that introduces a control sequence. */
  lemma ClassesByCodePoint(c: char)
    ensures ESC as int == 27
    ensures IsParameter(c) <==> 0x30 <= c as int <= 0x3F
    ensures IsIntermediate(c) <==> 0x20 <= c as int <= 0x2F
    ensures IsFinal(c) <==> 0x40 <= c as int <= 0x7E
    ensures IsShortFinal(c) <==> 0x40 <= c as int <= 0x5F && c as int != 0x5B
  {
  }

  /** The language of the pattern: ESC and a short final, or ESC `[`, parameters,
      intermediates and one final. `mid` is where the intermediates begin. */
  ghost predicate IsControlSequence(s: string, mid: nat) {
    && 3 <= |s| && s[0] == ESC && s[1] == '['
    && 2 <= mid < |s|
    && (forall i :: 2 <= i < mid ==> IsParameter(s[i]))
    && (forall i :: mid <= i < |s| - 1 ==> IsIntermediate(s[i]))
    && IsFinal(s[|s| - 1])
  }

  ghost predicate IsEscape(s: string) {
    || (|s| == 2 && s[0] == ESC && IsShortFinal(s[1]))
    || exists mid :: IsControlSequence(s, mid)
  }

  /** Length of the longest prefix made of characters of one class. */
  function Span(inClass: char -> bool, s: string): (n: nat)
    ensures n <= |s|
    ensures forall i :: 0 <= i < n ==> inClass(s[i])
    ensures n < |s| ==> !inClass(s[n])
  {
    if s == [] || !inClass(s[0]) then 0
    else
      var n := Span(inClass, s[1..]);
      assert forall i :: 0 < i <= n ==> s[i] == s[1..][i - 1];
      1 + n
  }

  lemma SpanExact(inClass: char -> bool, s: string, n: nat)
    requires n < |s| && !inClass(s[n])
    requires forall i :: 0 <= i < n ==> inClass(s[i])
    ensures Span(inClass, s) == n
  {
  }

  /** Length of the escape sequence at the head of `s`, or 0 when none starts there. */
  function EscapeLength(s: string): (n: nat)
    ensures n <= |s| && n != 1
  {
    if |s| < 2 || s[0] != ESC then 0
    else if IsShortFinal(s[1]) then 2
    else if s[1] != '[' then 0
    else
      var mid := 2 + Span(IsParameter, s[2..]);
      var last := mid + Span(IsIntermediate, s[mid..]);
      if last < |s| && IsFinal(s[last]) then last + 1 else 0
  }

  /** `re.sub` with the empty replacement: leftmost matches, one pass. */
  function Substitute(s: string): string
    decreases |s|
  {
    if s == [] then []
    else
      var n := EscapeLength(s);
      if n > 0 then Substitute(s[n..]) else [s[0]] + Substitute(s[1..])
  }

  function StripAnsi(text: string): string {
    if text == [] || ESC !in text then text else Substitute(text)
  }

  // ---------------------------------------------------------------- the scanner matches the pattern

  lemma ScannerFindsEscape(s: string)
    ensures EscapeLength(s) > 0 ==> IsEscape(s[..EscapeLength(s)])
  {
    var n := EscapeLength(s);
    if n > 0 && s[1] == '[' {
      var mid := 2 + Span(IsParameter, s[2..]);
      assert forall i :: 2 <= i < mid ==> s[i] == s[2..][i - 2];
      assert forall i :: mid <= i < n - 1 ==> s[i] == s[mid..][i - mid];
      assert IsControlSequence(s[..n], mid);
    }
  }

  lemma ScannerMissesNoEscape(s: string, n: nat)
    requires n <= |s| && IsEscape(s[..n])
    ensures EscapeLength(s) == n
  {
    var e := s[..n];
    if !(n == 2 && IsShortFinal(s[1])) {
      var mid: nat :| IsControlSequence(e, mid);
      assert forall i :: 0 <= i < n ==> s[i] == e[i];
      SpanExact(IsParameter, s[2..], mid - 2);
      SpanExact(IsIntermediate, s[mid..], n - 1 - mid);
    }
  }

  /** The scanner accepts exactly the prefixes the pattern describes; a position has at most one. */
  lemma ScannerExact(s: string, n: nat)
    requires 0 < n <= |s|
    ensures EscapeLength(s) == n <==> IsEscape(s[..n])
  {
    ScannerFindsEscape(s);
    if IsEscape(s[..n]) { ScannerMissesNoEscape(s, n); }
  }

  lemma EscapeHasNoNewline(s: string, n: nat)
    requires n <= |s| && IsEscape(s[..n])
    ensures forall i :: 0 <= i < n ==> s[i] != '\n'
  {
    forall i | 0 <= i < n ensures s[i] != '\n' {
      assert s[i] == s[..n][i];
    }
  }

  // ---------------------------------------------------------------- one pass

  lemma {:induction false} NoEscNothingToDo(s: string)
    requires ESC !in s
    ensures Substitute(s) == s
  {
    if s != [] {
      assert s[0] in s;
      NoEscNothingToDo(s[1..]);
    }
  }

  /** The guard of `strip_ansi` is only a shortcut. */
  lemma StripIsSubstitute(s: string)
    ensures StripAnsi(s) == Substitute(s)
  {
    if ESC !in s { NoEscNothingToDo(s); }
  }

  /** One pass only deletes characters, and deletes none exactly when no sequence starts anywhere. */
  lemma {:induction false} SubstituteShrinks(s: string)
    ensures |Substitute(s)| <= |s|
    ensures |Substitute(s)| == |s| ==> Substitute(s) == s
    ensures Substitute(s) == s <==> forall i :: 0 <= i < |s| ==> EscapeLength(s[i..]) == 0
    ensures forall c :: c in Substitute(s) ==> c in s
    decreases |s|
  {
    if s != [] {
      var n := EscapeLength(s);
      assert s[0..] == s;
      if n > 0 {
        SubstituteShrinks(s[n..]);
      } else {
        SubstituteShrinks(s[1..]);
        assert forall i :: 0 <= i < |s| - 1 ==> s[1..][i..] == s[i + 1..];
        if forall i :: 0 <= i < |s| - 1 ==> EscapeLength(s[1..][i..]) == 0 {
          forall i | 0 <= i < |s| ensures EscapeLength(s[i..]) == 0 {
            if i > 0 { assert s[1..][i - 1..] == s[i..]; }
          }
        }
        if forall i :: 0 <= i < |s| ==> EscapeLength(s[i..]) == 0 {
          forall i | 0 <= i < |s| - 1 ensures EscapeLength(s[1..][i..]) == 0 {
            assert s[1..][i..] == s[i + 1..];
          }
        }
      }
    }
  }

  /** `strip_ansi` returns its input exactly when no escape sequence starts at any position. */
  lemma StripFixedPoint(s: string)
    ensures StripAnsi(s) == s <==> forall i :: 0 <= i < |s| ==> EscapeLength(s[i..]) == 0
    ensures |StripAnsi(s)| <= |s|
    ensures |StripAnsi(s)| == |s| ==> StripAnsi(s) == s
    ensures forall c :: c in StripAnsi(s) ==> c in s
  {
    StripIsSubstitute(s);
    SubstituteShrinks(s);
  }

  /** A second pass can find sequences that the first one created. */
  lemma NotIdempotent()
    ensures var s := [ESC, ESC, '[', 'm', '[', 'm'];
            StripAnsi(s) == [ESC, '[', 'm'] && StripAnsi(StripAnsi(s)) == []
  {
    var s := [ESC, ESC, '[', 'm', '[', 'm'];
    assert EscapeLength(s) == 0;
    assert s[1..][0] == ESC && s[1..][1] == '[' && s[1..][2] == 'm';
    assert Span(IsParameter, s[1..][2..]) == 0 && Span(IsIntermediate, s[1..][2..]) == 0;
    assert EscapeLength(s[1..]) == 3;
    assert s[1..][3..] == ['[', 'm'];
    NoEscNothingToDo(['[', 'm']);
    var t := [ESC, '[', 'm'];
    assert Span(IsParameter, t[2..]) == 0 && Span(IsIntermediate, t[2..]) == 0;
    assert EscapeLength(t) == 3;
    assert Substitute(t) == Substitute(t[3..]);
    StripIsSubstitute(s);
    StripIsSubstitute(t);
  }

  // ---------------------------------------------------------------- when no ESC is left

  /** Every ESC of the text starts a complete sequence. */
  predicate EveryEscCompletes(s: string) {
    forall i :: 0 <= i < |s| && s[i] == ESC ==> EscapeLength(s[i..]) > 0
  }

  lemma NoEscInside(s: string, i: nat)
    requires 0 < i < EscapeLength(s)
    ensures s[i] != ESC
  {
    var n := EscapeLength(s);
    ScannerFindsEscape(s);
    assert s[i] == s[..n][i];
  }

  /** Skipping what the scanner skips at the head changes nothing behind it. */
  lemma EscCompletesBehind(s: string, k: nat)
    requires s != [] && k == if EscapeLength(s) > 0 then EscapeLength(s) else 1
    ensures EveryEscCompletes(s) <==> EveryEscCompletes(s[k..]) && (EscapeLength(s) > 0 || s[0] != ESC)
  {
    assert s[0..] == s;
    assert forall i :: 0 <= i < |s| - k ==> s[k..][i] == s[k + i] && s[k..][i..] == s[k + i..];
    if EveryEscCompletes(s[k..]) && (EscapeLength(s) > 0 || s[0] != ESC) {
      forall i | 0 <= i < |s| && s[i] == ESC ensures EscapeLength(s[i..]) > 0 {
        if 0 < i < k { NoEscInside(s, i); }
        if i >= k { assert s[k..][i - k] == ESC && s[k..][i - k..] == s[i..]; }
      }
    }
    if EveryEscCompletes(s) {
      forall i | 0 <= i < |s[k..]| && s[k..][i] == ESC ensures EscapeLength(s[k..][i..]) > 0 {
        assert s[k + i] == ESC;
      }
    }
  }

  lemma {:induction false} NoEscLeft(s: string)
    ensures ESC !in Substitute(s) <==> EveryEscCompletes(s)
    decreases |s|
  {
    if s != [] {
      var k := if EscapeLength(s) > 0 then EscapeLength(s) else 1;
      EscCompletesBehind(s, k);
      NoEscLeft(s[k..]);
    }
  }

  /** Stripping leaves no ESC if and only if every ESC of the input starts a complete sequence. */
  lemma StripLeavesNoEscExactly(s: string)
    ensures ESC !in StripAnsi(s) <==> EveryEscCompletes(s)
  {
    StripIsSubstitute(s);
    NoEscLeft(s);
  }

  // ---------------------------------------------------------------- when a second pass finds nothing

  /** How far a sequence has got: its ESC, its parameters or its intermediates were read. */
  datatype Progress = AfterEsc | InParameters | InIntermediates

  /** Some beginning of the text completes the sequence. */
  predicate Finishes(at: Progress, s: string)
    decreases |s|
  {
    s != [] &&
    match at
    case AfterEsc => IsShortFinal(s[0]) || (s[0] == '[' && Finishes(InParameters, s[1..]))
    case InParameters =>
      IsFinal(s[0]) || (IsParameter(s[0]) && Finishes(InParameters, s[1..]))
      || (IsIntermediate(s[0]) && Finishes(InIntermediates, s[1..]))
    case InIntermediates => IsFinal(s[0]) || (IsIntermediate(s[0]) && Finishes(InIntermediates, s[1..]))
  }

  /** The same on unstripped text: complete sequences in between are skipped. */
  predicate FinishesAcross(at: Progress, s: string)
    decreases |s|
  {
    if s == [] then false
    else
      var n := EscapeLength(s);
      if n > 0 then FinishesAcross(at, s[n..])
      else
        match at
        case AfterEsc => IsShortFinal(s[0]) || (s[0] == '[' && FinishesAcross(InParameters, s[1..]))
        case InParameters =>
          IsFinal(s[0]) || (IsParameter(s[0]) && FinishesAcross(InParameters, s[1..]))
          || (IsIntermediate(s[0]) && FinishesAcross(InIntermediates, s[1..]))
        case InIntermediates =>
          IsFinal(s[0]) || (IsIntermediate(s[0]) && FinishesAcross(InIntermediates, s[1..]))
  }

  /** An unmatched ESC is followed by text that, with complete sequences skipped, completes a sequence. */
  predicate CreatesSequence(s: string)
    decreases |s|
  {
    if s == [] then false
    else
      var n := EscapeLength(s);
      if n > 0 then CreatesSequence(s[n..])
      else (s[0] == ESC && FinishesAcross(AfterEsc, s[1..])) || CreatesSequence(s[1..])
  }

  lemma {:induction false} AcrossIsAfterStripping(at: Progress, s: string)
    ensures FinishesAcross(at, s) <==> Finishes(at, Substitute(s))
    decreases |s|
  {
    if s != [] {
      var n := EscapeLength(s);
      if n > 0 {
        AcrossIsAfterStripping(at, s[n..]);
      } else {
        TailOfCons(s[0], Substitute(s[1..]));
        AcrossIsAfterStripping(InParameters, s[1..]);
        AcrossIsAfterStripping(InIntermediates, s[1..]);
      }
    }
  }

  lemma {:induction false} IntermediatesExact(s: string)
    ensures var k := Span(IsIntermediate, s);
            Finishes(InIntermediates, s) <==> k < |s| && IsFinal(s[k])
  {
    if s != [] && IsIntermediate(s[0]) { IntermediatesExact(s[1..]); }
  }

  lemma NoParameters(s: string)
    requires s == [] || !IsParameter(s[0])
    ensures Finishes(InParameters, s) <==> Finishes(InIntermediates, s)
  {
  }

  lemma {:induction false} ParametersExact(s: string)
    ensures Finishes(InParameters, s) <==> Finishes(InIntermediates, s[Span(IsParameter, s)..])
  {
    if s != [] && IsParameter(s[0]) {
      ParametersExact(s[1..]);
      assert s[Span(IsParameter, s)..] == s[1..][Span(IsParameter, s[1..])..];
    } else {
      NoParameters(s);
      assert s[0..] == s;
    }
  }

  /** The scanner finds a sequence behind an ESC exactly when the text finishes it. */
  lemma ScannerFinishes(s: string)
    ensures EscapeLength([ESC] + s) > 0 <==> Finishes(AfterEsc, s)
  {
    TailOfCons(ESC, s);
    if s != [] && s[0] == '[' {
      assert ([ESC] + s)[2..] == s[1..];
      ParametersExact(s[1..]);
      var mid := 2 + Span(IsParameter, s[1..]);
      assert ([ESC] + s)[mid..] == s[1..][mid - 2..];
      IntermediatesExact(s[1..][mid - 2..]);
    }
  }

  lemma FixedStep(c: char, t: string)
    ensures Substitute([c] + t) == [c] + t <==> EscapeLength([c] + t) == 0 && Substitute(t) == t
  {
    TailOfCons(c, t);
    SubstituteShrinks(t);
    if EscapeLength([c] + t) > 0 {
      SubstituteShrinks(([c] + t)[EscapeLength([c] + t)..]);
    } else if Substitute([c] + t) == [c] + t {
      TailOfCons(c, Substitute(t));
    }
  }

  lemma {:induction false} SecondPassExact(s: string)
    ensures Substitute(Substitute(s)) == Substitute(s) <==> !CreatesSequence(s)
    decreases |s|
  {
    if s != [] {
      var n := EscapeLength(s);
      if n > 0 {
        SecondPassExact(s[n..]);
      } else {
        var rest := Substitute(s[1..]);
        SecondPassExact(s[1..]);
        FixedStep(s[0], rest);
        AcrossIsAfterStripping(AfterEsc, s[1..]);
        ScannerFinishes(rest);
      }
    }
  }

  /** A second pass changes nothing if and only if no unmatched ESC of the input is followed by text that, with
      complete sequences skipped, completes a sequence. */
  lemma IdempotentExactly(s: string)
    ensures StripAnsi(StripAnsi(s)) == StripAnsi(s) <==> !CreatesSequence(s)
  {
    StripIsSubstitute(s);
    StripIsSubstitute(StripAnsi(s));
    SecondPassExact(s);
  }

  /** It suffices that every ESC of the input starts a complete sequence. */
  lemma CompleteSequencesStripOnce(s: string)
    requires EveryEscCompletes(s)
    ensures !CreatesSequence(s)
  {
    StripLeavesNoEscExactly(s);
    IdempotentExactly(s);
  }

  // ---------------------------------------------------------------- a homomorphism over lines

  lemma EscapeStopsAtNewline(a: string, b: string)
    requires a != []
    ensures EscapeLength(a + "\n" + b) == EscapeLength(a)
  {
    var s := a + "\n" + b;
    var n := EscapeLength(s);
    if n > 0 {
      ScannerFindsEscape(s);
      EscapeHasNoNewline(s, n);
      assert s[|a|] == '\n';
      assert s[..n] == a[..n];
      ScannerMissesNoEscape(a, n);
    } else if EscapeLength(a) > 0 {
      ScannerFindsEscape(a);
      assert s[..EscapeLength(a)] == a[..EscapeLength(a)];
      ScannerMissesNoEscape(s, EscapeLength(a));
    }
  }

  /** What a step of the pass keeps, and where it goes on. */
  function KeptAt(s: string): string
    requires s != []
  {
    if EscapeLength(s) > 0 then [] else [s[0]]
  }

  function NextAt(s: string): (k: nat)
    requires s != []
    ensures 0 < k <= |s|
  {
    if EscapeLength(s) > 0 then EscapeLength(s) else 1
  }

  lemma SubstituteStep(s: string)
    requires s != []
    ensures Substitute(s) == KeptAt(s) + Substitute(s[NextAt(s)..])
  {
    EmptyEnds(Substitute(s[NextAt(s)..]));
  }

  lemma StepBeforeNewline(a: string, b: string)
    requires a != []
    ensures var s := a + "\n" + b;
            KeptAt(s) == KeptAt(a) && NextAt(s) == NextAt(a) && s[NextAt(s)..] == a[NextAt(a)..] + "\n" + b
  {
    EscapeStopsAtNewline(a, b);
    assert (a + "\n" + b)[0] == a[0];
  }

  lemma Rejoin(kept: string, a: string, b: string)
    ensures kept + (a + "\n" + b) == kept + a + "\n" + b
  {
  }

  lemma NewlineKept(b: string)
    ensures Substitute("" + "\n" + b) == Substitute("") + "\n" + Substitute(b)
  {
    var s := "\n" + b;
    assert "" + "\n" + b == s;
    assert s[0] == '\n' && s[1..] == b;
  }

  lemma {:induction false} SubstituteSplitsAtNewline(a: string, b: string)
    ensures Substitute(a + "\n" + b) == Substitute(a) + "\n" + Substitute(b)
    decreases |a|
  {
    if a == [] {
      NewlineKept(b);
    } else {
      var rest := a[NextAt(a)..];
      StepBeforeNewline(a, b);
      SubstituteStep(a + "\n" + b);
      SubstituteStep(a);
      SubstituteSplitsAtNewline(rest, b);
      Rejoin(KeptAt(a), Substitute(rest), Substitute(b));
    }
  }

  /** Stripping a newline-joined text is stripping each line. */
  lemma {:induction false} StripIsLinewise(lines: seq<string>)
    ensures StripAnsi(Join('\n', lines)) == Join('\n', Map(StripAnsi, lines))
  {
    if |lines| == 1 {
    } else if lines != [] {
      StripIsLinewise(lines[1..]);
      assert Map(StripAnsi, lines)[1..] == Map(StripAnsi, lines[1..]);
      var rest := Join('\n', lines[1..]);
      assert Join('\n', lines) == lines[0] + "\n" + rest;
      SubstituteSplitsAtNewline(lines[0], rest);
      StripIsSubstitute(Join('\n', lines));
      StripIsSubstitute(lines[0]);
      StripIsSubstitute(rest);
    }
  }

  /** Plain text in front of a line is not affected. */
  lemma {:induction false} StripKeepsPlainPrefix(plain: string, s: string)
    requires ESC !in plain
    ensures StripAnsi(plain + s) == plain + StripAnsi(s)
  {
    if plain == [] {
      assert plain + s == s;
    } else {
      assert plain[0] in plain;
      assert (plain + s)[0] == plain[0] && (plain + s)[1..] == plain[1..] + s;
      StripKeepsPlainPrefix(plain[1..], s);
      StripIsSubstitute(plain + s);
      StripIsSubstitute(plain[1..] + s);
    }
  }
}
