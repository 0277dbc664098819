/** The recursive directory walk (asm_cleanup/walk/asm_walker.py). */
module Walker {
  import opened Wrappers
  import opened Sequences
  import opened Text
  import opened Transcript
  import opened Traversal

  /** `list_long`: the rows of a directory, or None when the command raises. */
  type Port = string -> Option<seq<string>>

  // ---------------------------------------------------------------- children

  /** `text.split()[-1]` of a text without trailing spaces. */
  function LastWord(text: string): string {
    if text == [] || IsSpace(text[|text| - 1]) then []
    else LastWord(text[..|text| - 1]) + [text[|text| - 1]]
  }

  /** The subdirectory that a row announces: its last word ends in a slash and it is no alias row. */
  function RowChild(row: string): Option<string> {
    var text := Strip(row);
    var last := LastWord(text);
    if text != [] && EndsWith(last, "/") && !Contains(text, "=>") then Some(last[..|last| - 1]) else None
  }

  predicate SpaceFree(s: string) {
    forall c :: c in s ==> !IsSpace(c)
  }

  predicate EndsInSpace(before: string) {
    before == "" || IsSpace(before[|before| - 1])
  }

  lemma {:induction false} LastWordParts(text: string) returns (before: string)
    ensures text == before + LastWord(text) && SpaceFree(LastWord(text)) && EndsInSpace(before)
  {
    if text == [] || IsSpace(text[|text| - 1]) {
      before := text;
      EmptyEnds(text);
    } else {
      var front, c := text[..|text| - 1], text[|text| - 1];
      before := LastWordParts(front);
      assert text == front + [c];
      Associative(before, LastWord(front), [c]);
    }
  }

  /** The last word is what no space interrupts and a space, or nothing, precedes. */
  lemma {:induction false} LastWordUnique(before: string, word: string)
    requires SpaceFree(word) && EndsInSpace(before)
    ensures LastWord(before + word) == word
  {
    if word == [] {
      EmptyEnds(before);
    } else {
      var n := |word| - 1;
      assert word[n] in word;
      assert (before + word)[..|before + word| - 1] == before + word[..n];
      LastWordUnique(before, word[..n]);
      assert word[..n] + [word[n]] == word;
    }
  }

  lemma LastWordExact(text: string, word: string)
    ensures LastWord(text) == word <==> SpaceFree(word) && exists before :: text == before + word && EndsInSpace(before)
  {
    var front := LastWordParts(text);
    if SpaceFree(word) {
      if before :| text == before + word && EndsInSpace(before) { LastWordUnique(before, word); }
    }
  }

  /** The arrow of an alias row stands somewhere in the text. */
  ghost predicate HasArrow(text: string) {
    exists i :: 0 <= i < |text| - 1 && text[i] == '=' && text[i + 1] == '>'
  }

  lemma ArrowContained(text: string)
    ensures Contains(text, "=>") <==> HasArrow(text)
  {
    if i :| 0 <= i <= |text| && StartsWith(text[i..], "=>") {
      assert text[i] == text[i..][0] == "=>"[0] && text[i + 1] == text[i..][1] == "=>"[1];
    }
    if i :| 0 <= i < |text| - 1 && text[i] == '=' && text[i + 1] == '>' {
      assert text[i..][..2] == "=>";
    }
  }

  /** The row announces the subdirectory: it holds no arrow, and trimmed it is the name with a slash at its end, alone
      or behind a space. */
  ghost predicate Announces(row: string, name: string) {
    && !HasArrow(Strip(row)) && SpaceFree(name)
    && exists before :: Strip(row) == before + (name + "/") && EndsInSpace(before)
  }

  lemma SlashEnds(word: string, name: string)
    ensures EndsWith(word, "/") && word[..|word| - 1] == name <==> word == name + "/"
    ensures SpaceFree(name + "/") <==> SpaceFree(name)
  {
    if EndsWith(word, "/") && word[..|word| - 1] == name { assert word == word[..|word| - 1] + word[|word| - 1..]; }
    assert forall c :: c in name + "/" <==> c in name || c == '/';
  }

  lemma ChildOfText(row: string, name: string)
    ensures RowChild(row) == Some(name) <==> LastWord(Strip(row)) == name + "/" && !Contains(Strip(row), "=>")
  {
    SlashEnds(LastWord(Strip(row)), name);
  }

  /** Exactly the announced names are read off the rows. */
  lemma RowChildExact(row: string, name: string)
    ensures RowChild(row) == Some(name) <==> Announces(row, name)
  {
    ChildOfText(row, name);
    ArrowContained(Strip(row));
    LastWordExact(Strip(row), name + "/");
    SlashEnds(name + "/", name);
  }

  function Children(rows: seq<string>): seq<string> {
    Collect(RowChild, rows)
  }

  function ChildrenOf(answer: Option<seq<string>>): seq<string> {
    if answer.Some? then Children(answer.value) else []
  }

  /** The tree that a port reports. */
  function AsmTree(port: Port): Tree {
    Tree(port, ChildrenOf)
  }

  /** How many levels a walk descends: a non-positive limit lists the root only; without a limit the part
      of the tree that is reached before the first failing listing must end, and `height` says where. */
  function Levels(maxDepth: Option<int>, height: nat): nat {
    match maxDepth
    case Some(d) => if d < 0 then 0 else d
    case None => height
  }

  // ---------------------------------------------------------------- what is reached

  lemma ChildrenAnnounced(rows: seq<string>, name: string)
    ensures name in Children(rows) <==> exists row :: row in rows && Announces(row, name)
  {
    CollectMembers(RowChild, rows, name);
    forall row ensures RowChild(row) == Some(name) <==> Announces(row, name) { RowChildExact(row, name); }
  }

  /** Some row in the listing of the directory announces the name. */
  ghost predicate Names(port: Port, path: string, name: string) {
    port(path).Some? && exists row :: row in port(path).value && Announces(row, name)
  }

  /** The directory can be reached from another by following announced names, in at most so many steps. */
  ghost predicate Reaches(port: Port, from: string, path: string, steps: nat)
    decreases steps
  {
    path == from
    || (steps > 0 && exists name :: Names(port, from, name) && Reaches(port, from + "/" + name, path, steps - 1))
  }

  lemma KidsNamed(port: Port, path: string, name: string)
    ensures name in Kids(AsmTree(port), path) <==> Names(port, path, name)
  {
    if port(path).Some? { ChildrenAnnounced(port(path).value, name); }
  }

  ghost predicate Visits(visits: seq<Visit>, path: string) {
    exists v :: v in visits && v.path == path
  }

  lemma VisitsConcat(a: seq<Visit>, b: seq<Visit>, path: string)
    ensures Visits(a + b, path) <==> Visits(a, path) || Visits(b, path)
  {
    if v :| v in a && v.path == path { assert v in a + b; }
    if v :| v in b && v.path == path { assert v in a + b; }
  }

  lemma {:induction false} VisitedExactly(port: Port, from: string, path: string, depth: nat, left: nat)
    ensures Visits(PreOrder(AsmTree(port), from, depth, left), path) <==> Reaches(port, from, path, left)
    decreases left, 0
  {
    var here := Visit(from, port(from), depth);
    assert here in [here];
    if left > 0 {
      var names := Kids(AsmTree(port), from);
      var below := Forest(AsmTree(port), from, names, depth + 1, left - 1);
      PreOrderParts(AsmTree(port), from, depth, left);
      VisitsConcat([here], below, path);
      ForestVisitedExactly(port, from, names, path, depth + 1, left - 1);
      if name :| name in names && Reaches(port, ChildPath(from, name), path, left - 1) { KidsNamed(port, from, name); }
      if name :| Names(port, from, name) && Reaches(port, from + "/" + name, path, left - 1) {
        KidsNamed(port, from, name);
      }
    }
  }

  lemma {:induction false} ForestVisitedExactly(port: Port, from: string, names: seq<string>, path: string, depth: nat,
                                                left: nat)
    ensures Visits(Forest(AsmTree(port), from, names, depth, left), path)
            <==> exists name :: name in names && Reaches(port, ChildPath(from, name), path, left)
    decreases left, 1 + |names|
  {
    if names != [] {
      VisitedExactly(port, ChildPath(from, names[0]), path, depth, left);
      ForestVisitedExactly(port, from, names[1..], path, depth, left);
      VisitsConcat(PreOrder(AsmTree(port), ChildPath(from, names[0]), depth, left),
                   Forest(AsmTree(port), from, names[1..], depth, left), path);
      HeadAndTail(names);
      assert names[0] in names;
    }
  }

  lemma ListedAreVisited(visits: seq<Visit>, path: string)
    ensures (exists d :: d in Listings(visits) && d.path == path) <==> Visits(visits, path)
  {
    if d :| d in Listings(visits) && d.path == path {
      var i :| 0 <= i < |visits| && Listings(visits)[i] == d;
      assert visits[i] in visits;
    }
    if v :| v in visits && v.path == path {
      var i :| 0 <= i < |visits| && visits[i] == v;
      assert Listings(visits)[i] in Listings(visits);
    }
  }

  lemma ListedAsAnswered(port: Port, from: string, left: nat)
    requires Completes(PreOrder(AsmTree(port), from, 0, left))
    ensures forall d :: d in Listings(PreOrder(AsmTree(port), from, 0, left)) ==> port(d.path) == Some(d.longLines)
  {
    var visits := PreOrder(AsmTree(port), from, 0, left);
    WalkLocates(AsmTree(port), from, 0, left);
    forall i | 0 <= i < |visits| ensures port(Listings(visits)[i].path) == Some(Listings(visits)[i].longLines) {
      assert visits[i].answer == port(visits[i].path);
    }
  }

  /** Progress is reported once per listing, numbered from 1, with the path of the list call; at most the last call goes
      unreported, when it fails. */
  lemma TicksFollowCalls(visits: seq<Visit>)
    ensures var ticks, calls := TicksFrom(0, Listed(visits)), Called(visits);
            && |ticks| == |Listed(visits)| && |calls| == |ticks| + (if Completes(visits) then 0 else 1)
            && forall i :: 0 <= i < |ticks| ==> ticks[i] == (i + 1, calls[i]) && Listed(visits)[i].path == calls[i]
  {
  }

  /** The completed walk lists exactly the directories that announced names reach, each with its rows. */
  ghost predicate ListsWhatIsReached(port: Port, from: string, steps: nat, directories: seq<Listing>) {
    && (forall path :: (exists d :: d in directories && d.path == path) <==> Reaches(port, from, path, steps))
    && (forall d :: d in directories ==> port(d.path) == Some(d.longLines))
  }

  lemma WalkListsWhatIsReached(port: Port, from: string, left: nat)
    requires Completes(PreOrder(AsmTree(port), from, 0, left))
    ensures ListsWhatIsReached(port, from, left, Listings(PreOrder(AsmTree(port), from, 0, left)))
  {
    var visits := PreOrder(AsmTree(port), from, 0, left);
    ListedAsAnswered(port, from, left);
    forall path ensures (exists d :: d in Listings(visits) && d.path == path) <==> Reaches(port, from, path, left) {
      ListedAreVisited(visits, path);
      VisitedExactly(port, from, path, 0, left);
    }
  }

  // ---------------------------------------------------------------- the walker

  /** The shared inventory buffer with what an observer sees of the walk. */
  class WalkBuffer {
    var directories: seq<Listing>
    var ticks: seq<(nat, string)>
    var calls: seq<string>

    constructor ()
      ensures Seen() == Observed([], [], [])
    {
      directories, ticks, calls := [], [], [];
    }

    function Seen(): Trace
      reads this
    {
      Observed(directories, ticks, calls)
    }

    method Call(path: string)
      modifies this
      ensures Seen() == old(Seen()).(calls := old(calls) + [path])
    {
      calls := calls + [path];
    }

    /** The listing just called for is appended and reported. */
    method Append(path: string, rows: seq<string>)
      modifies this
      ensures directories == old(directories) + [Listing(path, rows)]
      ensures ticks == old(ticks) + [(|old(directories)| + 1, path)] && calls == old(calls)
    {
      directories := directories + [Listing(path, rows)];
      ticks := ticks + [(|directories|, path)];
    }
  }

  /** The row loop of `_walk_one`. */
  method Subdirectories(rows: seq<string>) returns (subdirs: seq<string>)
    ensures subdirs == Children(rows)
  {
    subdirs := [];
    for i := 0 to |rows|
      invariant subdirs == Collect(RowChild, rows[..i])
    {
      CollectStep(RowChild, rows, i);
      var text := Strip(rows[i]);
      if text != [] {
        var last := LastWord(text);
        if EndsWith(last, "/") && !Contains(text, "=>") {
          subdirs := subdirs + [last[..|last| - 1]];
        }
      }
    }
    assert rows[..|rows|] == rows;
  }

  /** `left` is what the depth limit leaves below `depth`. */
  predicate Leaves(maxDepth: Option<int>, depth: nat, left: nat) {
    maxDepth.Some? ==> left == (if maxDepth.value <= depth then 0 else maxDepth.value - depth)
  }

  /** `_walk_one`: list, append, tick, and recurse into the subdirectories. */
  method WalkOne(port: Port, path: string, buffer: WalkBuffer, maxDepth: Option<int>, depth: nat, ghost left: nat)
    returns (ok: bool)
    requires Leaves(maxDepth, depth, left)
    requires maxDepth.None? ==> Settles(AsmTree(port), path, depth, left)
    modifies buffer
    ensures ok == Completes(PreOrder(AsmTree(port), path, depth, left))
    ensures buffer.Seen() == Extend(old(buffer.Seen()), PreOrder(AsmTree(port), path, depth, left))
    decreases left, 1
  {
    ghost var start := buffer.Seen();
    var answer := port(path);
    buffer.Call(path);
    if answer.None? {
      Unanswered(start, AsmTree(port), path, depth, left);
      return false;
    }
    buffer.Append(path, answer.value);
    ok := WalkBelow(port, path, answer.value, buffer, maxDepth, depth, left, start);
  }

  /** The part of `_walk_one` after the listing was appended. */
  method WalkBelow(port: Port, path: string, rows: seq<string>, buffer: WalkBuffer, maxDepth: Option<int>, depth: nat,
                   ghost left: nat, ghost start: Trace)
    returns (ok: bool)
    requires Leaves(maxDepth, depth, left)
    requires maxDepth.None? ==> Settles(AsmTree(port), path, depth, left)
    requires port(path) == Some(rows) && buffer.Seen() == Enter(start, Listing(path, rows))
    modifies buffer
    ensures ok == Completes(PreOrder(AsmTree(port), path, depth, left))
    ensures buffer.Seen() == Extend(start, PreOrder(AsmTree(port), path, depth, left))
    decreases left, 0
  {
    if maxDepth.Some? && depth >= maxDepth.value {
      EnteredLeaf(start, AsmTree(port), path, depth, left);
      return true;
    }
    var subdirs := Subdirectories(rows);
    if subdirs == [] {
      EnteredLeaf(start, AsmTree(port), path, depth, left);
      return true;
    }
    if maxDepth.None? { SettlesInner(AsmTree(port), path, depth, left); }
    EnteredInner(start, AsmTree(port), path, depth, left);
    ok := WalkChildren(port, path, subdirs, buffer, maxDepth, depth + 1, left - 1);
  }

  /** The loop over the subdirectories, in row order. */
  method WalkChildren(port: Port, path: string, subdirs: seq<string>, buffer: WalkBuffer, maxDepth: Option<int>,
                      depth: nat, ghost left: nat)
    returns (ok: bool)
    requires Leaves(maxDepth, depth, left)
    requires maxDepth.None? ==> SettlesAll(AsmTree(port), path, subdirs, depth, left)
    modifies buffer
    ensures ok == Completes(Forest(AsmTree(port), path, subdirs, depth, left))
    ensures buffer.Seen() == Extend(old(buffer.Seen()), Forest(AsmTree(port), path, subdirs, depth, left))
    decreases left, 2
  {
    ghost var start := buffer.Seen();
    ExtendNothing(start);
    assert subdirs[0..] == subdirs;
    for i := 0 to |subdirs|
      invariant maxDepth.None? ==> SettlesAll(AsmTree(port), path, subdirs[i..], depth, left)
      invariant Completes(Forest(AsmTree(port), path, subdirs[..i], depth, left))
      invariant buffer.Seen() == Extend(start, Forest(AsmTree(port), path, subdirs[..i], depth, left))
    {
      if maxDepth.None? { SettlesStep(AsmTree(port), path, subdirs, i, depth, left); }
      ghost var before := buffer.Seen();
      var walked := WalkOne(port, ChildPath(path, subdirs[i]), buffer, maxDepth, depth, left);
      AfterChild(start, AsmTree(port), path, subdirs, i, depth, left, before, buffer.Seen(), walked);
      if !walked { return false; }
    }
    assert subdirs[..|subdirs|] == subdirs;
    return true;
  }

  /** `AsmWalker.walk`: the inventory, or the path whose listing raised. */
  method Walk(port: Port, rootPath: string, maxDepth: Option<int>, ghost height: nat)
    returns (r: Result<Inventory, string>, ticks: seq<(nat, string)>, calls: seq<string>)
    requires maxDepth.None? ==> Settles(AsmTree(port), Strip(rootPath), 0, height)
    ensures var visits := PreOrder(AsmTree(port), Strip(rootPath), 0, Levels(maxDepth, height));
            && (r.Ok? <==> Completes(visits))
            && (r.Ok? ==> r.value == Inventory(Strip(rootPath), Listings(visits), SCHEMA_VERSION))
            && (r.Err? ==> Answered(visits) < |visits| && r.error == visits[Answered(visits)].path)
            && calls == Called(visits) && ticks == TicksFrom(0, Listed(visits))
    ensures var steps := match maxDepth { case None => height case Some(limit) => if limit > 0 then limit else 0 };
            r.Ok? ==> ListsWhatIsReached(port, Strip(rootPath), steps, r.value.directories)
    ensures |calls| == |ticks| + (if r.Ok? then 0 else 1)
    ensures forall i :: 0 <= i < |ticks| ==> ticks[i] == (i + 1, calls[i])
    ensures r.Ok? ==>
              && |ticks| == |r.value.directories|
              && forall i :: 0 <= i < |ticks| ==> r.value.directories[i].path == calls[i]
  {
    var root := Strip(rootPath);
    var buffer := new WalkBuffer();
    ghost var visits := PreOrder(AsmTree(port), root, 0, Levels(maxDepth, height));
    var ok := WalkOne(port, root, buffer, maxDepth, 0, Levels(maxDepth, height));
    FromNothing(visits);
    TicksFollowCalls(visits);
    if ok { WalkListsWhatIsReached(port, root, Levels(maxDepth, height)); }
    ticks, calls := buffer.ticks, buffer.calls;
    if ok {
      r := Ok(Inventory(root, buffer.directories, SCHEMA_VERSION));
    } else {
      r := Err(calls[|calls| - 1]);
    }
  }
}
