/** The MOVE script as a compiled program, and the session that runs it
    (asm_cleanup/sql/move_sql_emitter.py). */
module MoveSql {
  import opened Wrappers
  import opened Sequences
  import opened Text
  import opened Ordering
  import opened Dicts
  import opened AliasRecords
  import opened Elision

  const CDB_ROOT := "CDB$ROOT"
  const SENTINEL := "__INIT__"

  datatype MovePolicy = MovePolicy(
    destinationDiskGroup: string,
    pdbGuidMap: Dict<string>,
    autoPdbGuidMap: bool,
    online: bool,
    sqlHeader: Option<string>,
    sqlFooter: Option<string>,
    spoolFile: Option<string>)

  datatype InertText = Disclaimer | Custom(text: string) | SpoolOn(file: string) | SpoolOff

  datatype Stmt =
    | Inert(text: InertText)
    | SetContainer(clause: string)
    | Move(kind: FileType, source: string, destination: string, online: bool)

  type Script = seq<Stmt>

  // ---------------------------------------------------------------- container clauses

  predicate IsBareTail(s: string) {
    forall c :: c in s ==> IsLetter(c) || IsDigit(c) || c == '_' || c == '$' || c == '#'
  }

  /** `[A-Za-z][A-Za-z0-9_$#]*` */
  predicate IsBare(name: string) {
    name != "" && IsLetter(name[0]) && IsBareTail(name)
  }

  function DoubleQuotes(s: string): string {
    if s == [] then []
    else (if s[0] == '"' then ['"', '"'] else [s[0]]) + DoubleQuotes(s[1..])
  }

  function ContainerClause(name: string): string {
    if IsBare(name) then name else ['"'] + DoubleQuotes(name) + ['"']
  }

  function UndoubleQuotes(s: string): Option<string>
    decreases |s|
  {
    if s == [] then Some([])
    else if s[0] != '"' then
      match UndoubleQuotes(s[1..])
      case Some(t) => Some([s[0]] + t)
      case None => None
    else if |s| >= 2 && s[1] == '"' then
      match UndoubleQuotes(s[2..])
      case Some(t) => Some(['"'] + t)
      case None => None
    else None
  }

  /** How a session reads a container identifier: bare, or quoted with doubled inner quotes. */
  function DecodeClause(clause: string): Option<string> {
    if IsBare(clause) then Some(clause)
    else if |clause| >= 2 && clause[0] == '"' && clause[|clause| - 1] == '"' then
      UndoubleQuotes(clause[1..|clause| - 1])
    else None
  }

  lemma {:induction false} UndoubleDoubled(s: string)
    ensures UndoubleQuotes(DoubleQuotes(s)) == Some(s)
  {
    if s != [] {
      UndoubleDoubled(s[1..]);
      var d := DoubleQuotes(s);
      if s[0] == '"' {
        assert d[2..] == DoubleQuotes(s[1..]);
      } else {
        assert d[1..] == DoubleQuotes(s[1..]);
      }
      assert s == [s[0]] + s[1..];
    }
  }

  /** Every name, whatever its characters, is read back from its clause. */
  lemma ClauseRoundTrip(name: string)
    ensures DecodeClause(ContainerClause(name)) == Some(name)
  {
    if !IsBare(name) {
      UndoubleDoubled(name);
      var clause := ContainerClause(name);
      assert clause[1..|clause| - 1] == DoubleQuotes(name);
    }
  }

  lemma ClauseInjective(a: string, b: string)
    ensures ContainerClause(a) == ContainerClause(b) <==> a == b
  {
    ClauseRoundTrip(a);
    ClauseRoundTrip(b);
  }

  // ---------------------------------------------------------------- the session

  datatype Executed = Executed(container: string, kind: FileType, source: string, destination: string, online: bool)

  /** The container after a statement; an unreadable identifier leaves the session where it is. */
  function NextContainer(s: Stmt, container: string): string {
    if s.SetContainer? then DecodeClause(s.clause).GetOr(container) else container
  }

  function Run(script: Script, container: string): seq<Executed> {
    if script == [] then []
    else
      var s := script[0];
      var rest := Run(script[1..], NextContainer(s, container));
      if s.Move? then [Executed(container, s.kind, s.source, s.destination, s.online)] + rest else rest
  }

  function Switches(script: Script): nat {
    if script == [] then 0 else (if script[0].SetContainer? then 1 else 0) + Switches(script[1..])
  }

  // ---------------------------------------------------------------- the emitter

  function SortKey(r: AliasRecord): Key {
    [Casefold(r.diskGroup), Casefold(r.databaseName.GetOr("")), r.pdbGuid.GetOr(""), Casefold(r.sourcePath)]
  }

  function SortAliasRecords(records: seq<AliasRecord>): seq<AliasRecord> {
    Sort(SortKey, records)
  }

  /** Upper-cased GUIDs of the records that the map does not know, each once. */
  function UnmappedSet(records: seq<AliasRecord>, mapped: set<string>): seq<string> {
    if records == [] then []
    else
      var rest := UnmappedSet(records[1..], mapped);
      var guid := records[0].pdbGuid;
      if !Truthy(guid) || Upper(guid.value) in mapped || Upper(guid.value) in rest then rest
      else [Upper(guid.value)] + rest
  }

  function NameKey(name: string): Key {
    [name]
  }

  function FindUnmapped(policy: MovePolicy, records: seq<AliasRecord>): seq<string> {
    Sort(NameKey, UnmappedSet(records, UpperKeyed(policy.pdbGuidMap).Keys))
  }

  function Placeholder(guid: string): string {
    "PDB_GUID_" + (if |guid| <= 8 then guid else guid[..8])
  }

  /** `resolved_container`: the look-up does not fold case. */
  function Label(names: map<string, string>, guid: Option<string>): string {
    if !Truthy(guid) then CDB_ROOT
    else if guid.value in names then names[guid.value]
    else Placeholder(guid.value)
  }

  function PolicyLabel(policy: MovePolicy, r: AliasRecord): string {
    Label(UpperKeyed(policy.pdbGuidMap), r.pdbGuid)
  }

  function SwitchTo(wanted: string, last: string): Script {
    if Elided(wanted, last, CDB_ROOT, SENTINEL) then [] else [SetContainer(ContainerClause(wanted))]
  }

  function MoveOf(policy: MovePolicy, r: AliasRecord): Stmt {
    Move(r.fileType, r.sourcePath, policy.destinationDiskGroup, policy.online)
  }

  function Body(policy: MovePolicy, ordered: seq<AliasRecord>, last: string): Script {
    if ordered == [] then []
    else
      var wanted := PolicyLabel(policy, ordered[0]);
      SwitchTo(wanted, last) + [MoveOf(policy, ordered[0])] + Body(policy, ordered[1..], wanted)
  }

  function Prologue(policy: MovePolicy): Script {
    [Inert(Disclaimer)]
    + (if Truthy(policy.sqlHeader) then [Inert(Custom(Strip(policy.sqlHeader.value)))] else [])
    + (if Truthy(policy.spoolFile) then [Inert(SpoolOn(policy.spoolFile.value))] else [])
  }

  function Epilogue(policy: MovePolicy): Script {
    (if Truthy(policy.spoolFile) then [Inert(SpoolOff)] else [])
    + (if Truthy(policy.sqlFooter) then [Inert(Custom(Strip(policy.sqlFooter.value)))] else [])
  }

  /** The script, or the unmapped GUIDs that block it. */
  function Emitted(policy: MovePolicy, records: seq<AliasRecord>, failOnUnmapped: bool): Result<Script, seq<string>> {
    var unmapped := FindUnmapped(policy, records);
    if failOnUnmapped && unmapped != [] then Err(unmapped)
    else Ok(Prologue(policy) + Body(policy, SortAliasRecords(records), SENTINEL) + Epilogue(policy))
  }

  lemma BodyStep(policy: MovePolicy, ordered: seq<AliasRecord>, i: nat, last: string)
    requires i < |ordered|
    ensures var wanted := PolicyLabel(policy, ordered[i]);
            Body(policy, ordered[i..], last)
            == SwitchTo(wanted, last) + [MoveOf(policy, ordered[i])] + Body(policy, ordered[i + 1..], wanted)
  {
    assert ordered[i..][0] == ordered[i] && ordered[i..][1..] == ordered[i + 1..];
  }

  lemma Appended(before: Script, switch: Script, move: Stmt, rest: Script)
    ensures before + switch + [move] + rest == before + (switch + [move] + rest)
  {
  }

  /** The loop of `emit`: a switch when the label changes, then the move. */
  method EmitMoves(policy: MovePolicy, guidToName: map<string, string>, ordered: seq<AliasRecord>) returns (sql: Script)
    requires guidToName == UpperKeyed(policy.pdbGuidMap)
    ensures sql == Body(policy, ordered, SENTINEL)
  {
    sql := [];
    var lastContainer := SENTINEL;
    assert ordered[0..] == ordered;
    EmptyEnds(Body(policy, ordered, SENTINEL));
    for i := 0 to |ordered|
      invariant sql + Body(policy, ordered[i..], lastContainer) == Body(policy, ordered, SENTINEL)
    {
      ghost var before, last := sql, lastContainer;
      var wanted := Label(guidToName, ordered[i].pdbGuid);
      BodyStep(policy, ordered, i, lastContainer);
      if wanted != lastContainer {
        if !(lastContainer == SENTINEL && wanted == CDB_ROOT) {
          sql := sql + [SetContainer(ContainerClause(wanted))];
        }
        lastContainer := wanted;
      }
      sql := sql + [Move(ordered[i].fileType, ordered[i].sourcePath, policy.destinationDiskGroup, policy.online)];
      Appended(before, SwitchTo(wanted, last), MoveOf(policy, ordered[i]), Body(policy, ordered[i + 1..], wanted));
      EmptyEnds(before);
      assert sql == before + SwitchTo(wanted, last) + [MoveOf(policy, ordered[i])];
    }
    assert Body(policy, ordered[|ordered|..], lastContainer) == [];
    EmptyEnds(sql);
  }

  method Emit(policy: MovePolicy, records: seq<AliasRecord>, failOnUnmapped: bool)
    returns (r: Result<Script, seq<string>>)
    ensures r == Emitted(policy, records, failOnUnmapped)
  {
    var unmapped := FindUnmapped(policy, records);
    if failOnUnmapped && unmapped != [] { return Err(unmapped); }
    var guidToName := UpperKeyed(policy.pdbGuidMap);
    var ordered := SortAliasRecords(records);
    var sql: Script := [Inert(Disclaimer)];
    if Truthy(policy.sqlHeader) { sql := sql + [Inert(Custom(Strip(policy.sqlHeader.value)))]; }
    if Truthy(policy.spoolFile) { sql := sql + [Inert(SpoolOn(policy.spoolFile.value))]; }
    assert sql == Prologue(policy);
    var moves := EmitMoves(policy, guidToName, ordered);
    sql := sql + moves;
    ghost var before := sql;
    if Truthy(policy.spoolFile) { sql := sql + [Inert(SpoolOff)]; }
    if Truthy(policy.sqlFooter) { sql := sql + [Inert(Custom(Strip(policy.sqlFooter.value)))]; }
    assert sql == before + Epilogue(policy);
    r := Ok(sql);
  }

  // ---------------------------------------------------------------- the strict check

  lemma {:induction false} UnmappedSetMembers(records: seq<AliasRecord>, mapped: set<string>)
    ensures forall g :: g in UnmappedSet(records, mapped) <==>
              g !in mapped
              && exists i :: 0 <= i < |records| && Truthy(records[i].pdbGuid) && g == Upper(records[i].pdbGuid.value)
    ensures Distinct(UnmappedSet(records, mapped))
  {
    if records != [] {
      var tail := records[1..];
      UnmappedSetMembers(tail, mapped);
      assert forall i :: 0 <= i < |tail| ==> tail[i] == records[i + 1];
      forall g ensures g in UnmappedSet(records, mapped) <==>
              g !in mapped
              && exists i :: 0 <= i < |records| && Truthy(records[i].pdbGuid) && g == Upper(records[i].pdbGuid.value)
      {
        if i :| 0 <= i < |records| && Truthy(records[i].pdbGuid) && g == Upper(records[i].pdbGuid.value) {
          if i > 0 { assert Truthy(tail[i - 1].pdbGuid) && g == Upper(tail[i - 1].pdbGuid.value); }
        }
        if g in UnmappedSet(tail, mapped) {
          var i :| 0 <= i < |tail| && Truthy(tail[i].pdbGuid) && g == Upper(tail[i].pdbGuid.value);
          assert Truthy(records[i + 1].pdbGuid) && g == Upper(records[i + 1].pdbGuid.value);
        }
      }
    }
  }

  ghost predicate IsUnmapped(policy: MovePolicy, records: seq<AliasRecord>, g: string) {
    && (exists r :: r in records && Truthy(r.pdbGuid) && g == Upper(r.pdbGuid.value))
    && (forall i :: 0 <= i < |policy.pdbGuidMap| ==> Upper(policy.pdbGuidMap[i].0) != g)
  }

  lemma {:induction false} DistinctCount(xs: seq<string>)
    requires Distinct(xs)
    ensures |set x | x in xs| == |xs|
  {
    if xs != [] {
      DistinctCount(xs[1..]);
      assert (set x | x in xs) == {xs[0]} + set x | x in xs[1..];
    }
  }

  /** The report lists exactly the GUIDs that no map key equals up to case, ascending, each once. */
  lemma FindUnmappedExact(policy: MovePolicy, records: seq<AliasRecord>)
    ensures forall g :: g in FindUnmapped(policy, records) <==> IsUnmapped(policy, records, g)
    ensures SortedBy(NameKey, FindUnmapped(policy, records))
    ensures |FindUnmapped(policy, records)| == |set g | g in FindUnmapped(policy, records)|
  {
    var mapped := UpperKeyed(policy.pdbGuidMap).Keys;
    var found := UnmappedSet(records, mapped);
    UnmappedSetMembers(records, mapped);
    SortIsStable(NameKey, found);
    SortMembers(NameKey, found);
    SortContents(NameKey, found);
    UpperKeyedDomain(policy.pdbGuidMap);
    forall g ensures g in FindUnmapped(policy, records) <==> IsUnmapped(policy, records, g) {
      if IsUnmapped(policy, records, g) {
        var r :| r in records && Truthy(r.pdbGuid) && g == Upper(r.pdbGuid.value);
        var i :| 0 <= i < |records| && records[i] == r;
        assert g in found;
      }
    }
    DistinctCount(found);
    assert (set g | g in FindUnmapped(policy, records)) == set g | g in found;
  }

  // ---------------------------------------------------------------- running a script

  lemma {:induction false} RunConcat(a: Script, b: Script, container: string)
    ensures exists c :: Run(a + b, container) == Run(a, container) + Run(b, c)
    ensures Switches(a + b) == Switches(a) + Switches(b)
  {
    if a == [] {
      assert a + b == b;
      assert Run(a + b, container) == Run(a, container) + Run(b, container);
    } else {
      assert (a + b)[1..] == a[1..] + b;
      var next := NextContainer(a[0], container);
      RunConcat(a[1..], b, next);
      var c :| Run(a[1..] + b, next) == Run(a[1..], next) + Run(b, c);
      assert Run(a + b, container) == Run(a, container) + Run(b, c);
    }
  }

  lemma {:induction false} RunInert(s: Script, container: string)
    requires forall x :: x in s ==> x.Inert?
    ensures Run(s, container) == [] && Switches(s) == 0
  {
    if s != [] {
      assert s[0] in s;
      RunInert(s[1..], container);
    }
  }

  lemma {:induction false} InertPrefix(pre: Script, s: Script, container: string)
    requires forall x :: x in pre ==> x.Inert?
    ensures Run(pre + s, container) == Run(s, container)
    ensures Switches(pre + s) == Switches(s)
  {
    if pre == [] {
      assert pre + s == s;
    } else {
      assert pre[0] in pre;
      assert (pre + s)[1..] == pre[1..] + s;
      InertPrefix(pre[1..], s, container);
    }
  }

  lemma InertSuffix(s: Script, post: Script, container: string)
    requires forall x :: x in post ==> x.Inert?
    ensures Run(s + post, container) == Run(s, container)
    ensures Switches(s + post) == Switches(s)
  {
    RunConcat(s, post, container);
    var c :| Run(s + post, container) == Run(s, container) + Run(post, c);
    RunInert(post, c);
    EmptyEnds(Run(s, container));
  }

  lemma FramesAreInert(policy: MovePolicy)
    ensures forall x :: x in Prologue(policy) ==> x.Inert?
    ensures forall x :: x in Epilogue(policy) ==> x.Inert?
  {
  }

  lemma RunEmitted(policy: MovePolicy, records: seq<AliasRecord>, failOnUnmapped: bool, container: string)
    requires Emitted(policy, records, failOnUnmapped).Ok?
    ensures var script := Emitted(policy, records, failOnUnmapped).value;
            var body := Body(policy, SortAliasRecords(records), SENTINEL);
            Run(script, container) == Run(body, container) && Switches(script) == Switches(body)
  {
    var body := Body(policy, SortAliasRecords(records), SENTINEL);
    FramesAreInert(policy);
    Associative(Prologue(policy), body, Epilogue(policy));
    InertPrefix(Prologue(policy), body + Epilogue(policy), container);
    InertSuffix(body, Epilogue(policy), container);
  }

  function Labels(policy: MovePolicy, ordered: seq<AliasRecord>): seq<string> {
    Map((r: AliasRecord) => PolicyLabel(policy, r), ordered)
  }

  function ExecutedIn(policy: MovePolicy, container: string, r: AliasRecord): Executed {
    Executed(container, r.fileType, r.sourcePath, policy.destinationDiskGroup, policy.online)
  }

  /** Each record's move, in the container its label names. */
  function LabelledMoves(policy: MovePolicy, ordered: seq<AliasRecord>): seq<Executed> {
    Map((r: AliasRecord) => ExecutedIn(policy, PolicyLabel(policy, r), r), ordered)
  }

  /** Each record's move, in a given container. */
  function MovesIn(policy: MovePolicy, containers: seq<string>, ordered: seq<AliasRecord>): seq<Executed>
    requires |containers| == |ordered|
  {
    seq(|ordered|, i requires 0 <= i < |ordered| => ExecutedIn(policy, containers[i], ordered[i]))
  }

  lemma RunMove(policy: MovePolicy, r: AliasRecord, rest: Script, session: string)
    ensures Run([MoveOf(policy, r)] + rest, session) == [ExecutedIn(policy, session, r)] + Run(rest, session)
    ensures Switches([MoveOf(policy, r)] + rest) == Switches(rest)
  {
    var script := [MoveOf(policy, r)] + rest;
    assert script[1..] == rest;
  }

  lemma RunSwitch(wanted: string, rest: Script, session: string)
    ensures Run([SetContainer(ContainerClause(wanted))] + rest, session) == Run(rest, wanted)
    ensures Switches([SetContainer(ContainerClause(wanted))] + rest) == 1 + Switches(rest)
  {
    ClauseRoundTrip(wanted);
    var script := [SetContainer(ContainerClause(wanted))] + rest;
    assert script[1..] == rest;
  }

  lemma RunStep(policy: MovePolicy, r: AliasRecord, wanted: string, last: string, rest: Script, session: string)
    ensures var here := if Elided(wanted, last, CDB_ROOT, SENTINEL) then session else wanted;
            Run(SwitchTo(wanted, last) + [MoveOf(policy, r)] + rest, session)
            == [ExecutedIn(policy, here, r)] + Run(rest, here)
    ensures Switches(SwitchTo(wanted, last) + [MoveOf(policy, r)] + rest)
            == (if Elided(wanted, last, CDB_ROOT, SENTINEL) then 0 else 1) + Switches(rest)
  {
    var tail := [MoveOf(policy, r)] + rest;
    assert SwitchTo(wanted, last) + [MoveOf(policy, r)] + rest == SwitchTo(wanted, last) + tail;
    if Elided(wanted, last, CDB_ROOT, SENTINEL) {
      assert SwitchTo(wanted, last) + tail == tail;
      RunMove(policy, r, rest, session);
    } else {
      RunSwitch(wanted, tail, session);
      RunMove(policy, r, rest, wanted);
    }
  }

  lemma MovesCons(policy: MovePolicy, here: string, rest: seq<string>, r: AliasRecord, tail: seq<AliasRecord>)
    requires |rest| == |tail|
    ensures MovesIn(policy, [here] + rest, [r] + tail) == [ExecutedIn(policy, here, r)] + MovesIn(policy, rest, tail)
  {
  }

  lemma LabelsCons(policy: MovePolicy, r: AliasRecord, tail: seq<AliasRecord>)
    ensures Labels(policy, [r] + tail) == [PolicyLabel(policy, r)] + Labels(policy, tail)
    ensures Labels(policy, [r] + tail)[1..] == Labels(policy, tail)
  {
  }

  /** The containers in which the emitted moves run. */
  function Tracked(policy: MovePolicy, ordered: seq<AliasRecord>, last: string, session: string): seq<string> {
    Track(Labels(policy, ordered), session, last, CDB_ROOT, SENTINEL)
  }

  lemma TrackedCons(policy: MovePolicy, r: AliasRecord, tail: seq<AliasRecord>, last: string, session: string)
    ensures var wanted := PolicyLabel(policy, r);
            var here := if Elided(wanted, last, CDB_ROOT, SENTINEL) then session else wanted;
            Tracked(policy, [r] + tail, last, session) == [here] + Tracked(policy, tail, wanted, here)
  {
    LabelsCons(policy, r, tail);
  }

  lemma KeptCons(policy: MovePolicy, r: AliasRecord, tail: seq<AliasRecord>, last: string)
    ensures var wanted := PolicyLabel(policy, r);
            Kept(Labels(policy, [r] + tail), last, CDB_ROOT, SENTINEL)
            == (if Elided(wanted, last, CDB_ROOT, SENTINEL) then 0 else 1)
              + Kept(Labels(policy, tail), wanted, CDB_ROOT, SENTINEL)
  {
    LabelsCons(policy, r, tail);
  }

  lemma BodyCons(policy: MovePolicy, r: AliasRecord, tail: seq<AliasRecord>, last: string)
    ensures var wanted := PolicyLabel(policy, r);
            Body(policy, [r] + tail, last) == SwitchTo(wanted, last) + [MoveOf(policy, r)] + Body(policy, tail, wanted)
  {
    TailOfCons(r, tail);
  }

  /** Running the emitted body is tracking the labels with elision. */
  lemma {:induction false} RunBody(policy: MovePolicy, ordered: seq<AliasRecord>, last: string, session: string)
    ensures |Tracked(policy, ordered, last, session)| == |ordered|
    ensures Run(Body(policy, ordered, last), session)
            == MovesIn(policy, Tracked(policy, ordered, last, session), ordered)
    decreases |ordered|
  {
    if ordered != [] {
      var r, tail := ordered[0], ordered[1..];
      var wanted := PolicyLabel(policy, r);
      var here := if Elided(wanted, last, CDB_ROOT, SENTINEL) then session else wanted;
      HeadAndTail(ordered);
      BodyCons(policy, r, tail, last);
      RunStep(policy, r, wanted, last, Body(policy, tail, wanted), session);
      TrackedCons(policy, r, tail, last, session);
      RunBody(policy, tail, wanted, here);
      MovesCons(policy, here, Tracked(policy, tail, wanted, here), r, tail);
    }
  }

  lemma {:induction false} BodySwitches(policy: MovePolicy, ordered: seq<AliasRecord>, last: string)
    ensures Switches(Body(policy, ordered, last)) == Kept(Labels(policy, ordered), last, CDB_ROOT, SENTINEL)
    decreases |ordered|
  {
    if ordered != [] {
      var r, tail := ordered[0], ordered[1..];
      var wanted := PolicyLabel(policy, r);
      HeadAndTail(ordered);
      BodyCons(policy, r, tail, last);
      RunStep(policy, r, wanted, last, Body(policy, tail, wanted), last);
      KeptCons(policy, r, tail, last);
      BodySwitches(policy, tail, wanted);
    }
  }

  lemma MovesDetermineContainers(policy: MovePolicy, cs: seq<string>, ds: seq<string>, ordered: seq<AliasRecord>)
    requires |cs| == |ds| == |ordered|
    ensures MovesIn(policy, cs, ordered) == MovesIn(policy, ds, ordered) <==> cs == ds
  {
    if MovesIn(policy, cs, ordered) == MovesIn(policy, ds, ordered) {
      forall i | 0 <= i < |cs| ensures cs[i] == ds[i] {
        assert MovesIn(policy, cs, ordered)[i] == MovesIn(policy, ds, ordered)[i];
      }
    }
  }

  lemma RootIsNotSentinel()
    ensures CDB_ROOT != SENTINEL
  {
    assert CDB_ROOT[0] == 'C';
  }

  /** For all records and policies: running the script from the root performs each record's move in its
      labelled container, in sorted order, if and only if the labels are sentinel-safe. */
  lemma ScriptFollowsLabels(policy: MovePolicy, records: seq<AliasRecord>, failOnUnmapped: bool)
    requires Emitted(policy, records, failOnUnmapped).Ok?
    ensures Run(Emitted(policy, records, failOnUnmapped).value, CDB_ROOT)
            == LabelledMoves(policy, SortAliasRecords(records))
            <==> SentinelSafe(Labels(policy, SortAliasRecords(records)), CDB_ROOT, SENTINEL)
  {
    var ordered := SortAliasRecords(records);
    var labels := Labels(policy, ordered);
    RunEmitted(policy, records, failOnUnmapped, CDB_ROOT);
    RunBody(policy, ordered, SENTINEL, CDB_ROOT);
    RootIsNotSentinel();
    TrackExact(labels, CDB_ROOT, SENTINEL);
    MovesDetermineContainers(policy, Track(labels, CDB_ROOT, SENTINEL, CDB_ROOT, SENTINEL), labels, ordered);
    assert LabelledMoves(policy, ordered) == MovesIn(policy, labels, ordered);
  }

  // ---------------------------------------------------------------- what the records mean

  /** The container a GUID stands for when case is folded on both sides. */
  function IntendedContainer(policy: MovePolicy, guid: Option<string>): string {
    var names := UpperKeyed(policy.pdbGuidMap);
    if !Truthy(guid) then CDB_ROOT
    else if Upper(guid.value) in names then names[Upper(guid.value)]
    else Placeholder(guid.value)
  }

  function IntendedMoves(policy: MovePolicy, ordered: seq<AliasRecord>): seq<Executed> {
    Map((r: AliasRecord) => ExecutedIn(policy, IntendedContainer(policy, r.pdbGuid), r), ordered)
  }

  predicate NoPdbNamedSentinel(policy: MovePolicy) {
    forall i :: 0 <= i < |policy.pdbGuidMap| ==> policy.pdbGuidMap[i].1 != SENTINEL
  }

  lemma LabelsAvoidSentinel(policy: MovePolicy, guid: Option<string>)
    requires NoPdbNamedSentinel(policy)
    ensures Label(UpperKeyed(policy.pdbGuidMap), guid) != SENTINEL
  {
    UpperKeyedDomain(policy.pdbGuidMap);
    if Truthy(guid) && guid.value !in UpperKeyed(policy.pdbGuidMap) {
      assert Placeholder(guid.value)[0] == 'P';
    }
  }

  /** The look-up without case folding finds the intended container exactly when the GUID is upper-case,
      is unknown in any case, or happens to be mapped to its own placeholder. */
  lemma LabelIsIntended(policy: MovePolicy, guid: Option<string>)
    ensures Label(UpperKeyed(policy.pdbGuidMap), guid) == IntendedContainer(policy, guid) <==>
            (Truthy(guid) && Upper(guid.value) in UpperKeyed(policy.pdbGuidMap) ==>
              IsUpper(guid.value) || UpperKeyed(policy.pdbGuidMap)[Upper(guid.value)] == Placeholder(guid.value))
  {
    UpperKeyedDomain(policy.pdbGuidMap);
  }

  /** The condition on one record under which its move runs where it should. */
  predicate Resolvable(policy: MovePolicy, r: AliasRecord) {
    Truthy(r.pdbGuid) && Upper(r.pdbGuid.value) in UpperKeyed(policy.pdbGuidMap) ==>
      IsUpper(r.pdbGuid.value) || UpperKeyed(policy.pdbGuidMap)[Upper(r.pdbGuid.value)] == Placeholder(r.pdbGuid.value)
  }

  /** For the labels that elision can misplace, label and intention agree: the root's and the sentinel's names are
      found by an upper-case GUID only. */
  lemma StrayLabelsResolve(policy: MovePolicy, r: AliasRecord)
    requires PolicyLabel(policy, r) == CDB_ROOT || PolicyLabel(policy, r) == SENTINEL
    ensures IntendedContainer(policy, r.pdbGuid) == PolicyLabel(policy, r)
  {
    LabelIsIntended(policy, r.pdbGuid);
    UpperKeyedDomain(policy.pdbGuidMap);
    if Truthy(r.pdbGuid) {
      assert Placeholder(r.pdbGuid.value)[0] == 'P' && CDB_ROOT[0] == 'C' && SENTINEL[0] == '_';
    }
  }

  function IntendedContainers(policy: MovePolicy, rs: seq<AliasRecord>): seq<string> {
    Map((r: AliasRecord) => IntendedContainer(policy, r.pdbGuid), rs)
  }

  lemma IntendedInContainers(policy: MovePolicy, rs: seq<AliasRecord>)
    ensures IntendedMoves(policy, rs) == MovesIn(policy, IntendedContainers(policy, rs), rs)
    ensures LabelledMoves(policy, rs) == MovesIn(policy, Labels(policy, rs), rs)
  {
  }

  lemma LabelsIntendedExactly(policy: MovePolicy, rs: seq<AliasRecord>)
    ensures Labels(policy, rs) == IntendedContainers(policy, rs) <==> forall r :: r in rs ==> Resolvable(policy, r)
  {
    var labels, intended := Labels(policy, rs), IntendedContainers(policy, rs);
    forall i | 0 <= i < |rs| ensures labels[i] == intended[i] <==> Resolvable(policy, rs[i]) {
      LabelIsIntended(policy, rs[i].pdbGuid);
    }
    if labels == intended {
      forall r | r in rs ensures Resolvable(policy, r) {
        var i :| 0 <= i < |rs| && rs[i] == r;
        assert labels[i] == intended[i];
      }
    }
    if forall r :: r in rs ==> Resolvable(policy, r) {
      forall i | 0 <= i < |rs| ensures labels[i] == intended[i] {
        assert rs[i] in rs;
      }
    }
  }

  lemma TrackedIntendedExactly(policy: MovePolicy, rs: seq<AliasRecord>)
    ensures Track(Labels(policy, rs), CDB_ROOT, SENTINEL, CDB_ROOT, SENTINEL) == IntendedContainers(policy, rs)
            <==> SentinelSafe(Labels(policy, rs), CDB_ROOT, SENTINEL)
                 && Labels(policy, rs) == IntendedContainers(policy, rs)
  {
    var labels, intended := Labels(policy, rs), IntendedContainers(policy, rs);
    var tracked := Track(labels, CDB_ROOT, SENTINEL, CDB_ROOT, SENTINEL);
    RootIsNotSentinel();
    TrackExact(labels, CDB_ROOT, SENTINEL);
    TrackStrays(labels, CDB_ROOT, SENTINEL, CDB_ROOT, SENTINEL);
    if tracked == intended {
      forall i | 0 <= i < |rs| ensures tracked[i] == labels[i] {
        assert tracked[i] == intended[i];
        if labels[i] == CDB_ROOT || labels[i] == SENTINEL { StrayLabelsResolve(policy, rs[i]); }
      }
      assert tracked == labels;
    }
  }

  /** Compiler correctness in its exact form, for every policy and all records: the script moves every record, in
      sorted order, in its intended container if and only if the labels are sentinel-safe and every record is
      resolvable without case folding. */
  lemma ScriptMeansRecordsExactly(policy: MovePolicy, records: seq<AliasRecord>, failOnUnmapped: bool)
    requires Emitted(policy, records, failOnUnmapped).Ok?
    ensures Run(Emitted(policy, records, failOnUnmapped).value, CDB_ROOT)
            == IntendedMoves(policy, SortAliasRecords(records))
            <==> SentinelSafe(Labels(policy, SortAliasRecords(records)), CDB_ROOT, SENTINEL)
                 && forall r :: r in records ==> Resolvable(policy, r)
  {
    var ordered := SortAliasRecords(records);
    RunEmitted(policy, records, failOnUnmapped, CDB_ROOT);
    RunBody(policy, ordered, SENTINEL, CDB_ROOT);
    IntendedInContainers(policy, ordered);
    MovesDetermineContainers(policy, Tracked(policy, ordered, SENTINEL, CDB_ROOT), IntendedContainers(policy, ordered),
                             ordered);
    TrackedIntendedExactly(policy, ordered);
    LabelsIntendedExactly(policy, ordered);
    SortMembers(SortKey, records);
  }

  lemma NoSentinelNameIsSafe(policy: MovePolicy, rs: seq<AliasRecord>)
    requires NoPdbNamedSentinel(policy)
    ensures SentinelSafe(Labels(policy, rs), CDB_ROOT, SENTINEL)
  {
    forall i | 0 <= i < |rs| ensures Labels(policy, rs)[i] != SENTINEL {
      LabelsAvoidSentinel(policy, rs[i].pdbGuid);
    }
    NoSentinelIsSafe(Labels(policy, rs), CDB_ROOT, SENTINEL);
  }

  lemma UpperIsResolvable(policy: MovePolicy, records: seq<AliasRecord>)
    requires UpperGuids(records)
    ensures forall r :: r in records ==> Resolvable(policy, r)
  {
    forall r | r in records ensures Resolvable(policy, r) {
      assert UpperGuid(r);
    }
  }

  /** For upper-case GUIDs: the script moves every record in its intended container if and only if the labels are
      sentinel-safe; no PDB named like the sentinel is enough. */
  lemma UpperScriptExact(policy: MovePolicy, records: seq<AliasRecord>, failOnUnmapped: bool)
    requires Emitted(policy, records, failOnUnmapped).Ok? && UpperGuids(records)
    ensures Run(Emitted(policy, records, failOnUnmapped).value, CDB_ROOT)
            == IntendedMoves(policy, SortAliasRecords(records))
            <==> SentinelSafe(Labels(policy, SortAliasRecords(records)), CDB_ROOT, SENTINEL)
    ensures NoPdbNamedSentinel(policy) ==> SentinelSafe(Labels(policy, SortAliasRecords(records)), CDB_ROOT, SENTINEL)
  {
    UpperIsResolvable(policy, records);
    ScriptMeansRecordsExactly(policy, records, failOnUnmapped);
    if NoPdbNamedSentinel(policy) { NoSentinelNameIsSafe(policy, SortAliasRecords(records)); }
  }

  /** Compiler correctness: a script that passes the strict check, for upper-case GUIDs and no PDB named
      like the sentinel, performs one move per record, in sorted order, in the container that the map
      gives for its GUID. */
  lemma EmitterCorrect(policy: MovePolicy, records: seq<AliasRecord>)
    requires Emitted(policy, records, true).Ok?
    requires UpperGuids(records) && NoPdbNamedSentinel(policy)
    ensures Run(Emitted(policy, records, true).value, CDB_ROOT) == IntendedMoves(policy, SortAliasRecords(records))
    ensures multiset(SortAliasRecords(records)) == multiset(records)
    ensures forall r :: r in records && Truthy(r.pdbGuid) ==>
              exists i :: 0 <= i < |policy.pdbGuidMap| && Upper(policy.pdbGuidMap[i].0) == r.pdbGuid.value
                          && IntendedContainer(policy, r.pdbGuid) == policy.pdbGuidMap[i].1
  {
    UpperScriptExact(policy, records, true);
    SortContents(SortKey, records);
    FindUnmappedExact(policy, records);
    UpperKeyedDomain(policy.pdbGuidMap);
    forall r | r in records && Truthy(r.pdbGuid)
      ensures exists i :: 0 <= i < |policy.pdbGuidMap| && Upper(policy.pdbGuidMap[i].0) == r.pdbGuid.value
                          && IntendedContainer(policy, r.pdbGuid) == policy.pdbGuidMap[i].1
    {
      assert UpperGuid(r);
      assert !IsUnmapped(policy, records, r.pdbGuid.value);
      assert r.pdbGuid.value in UpperKeyed(policy.pdbGuidMap);
    }
  }

  /** A single record labelled like the sentinel is moved where the session starts. */
  lemma LoneSentinelStays(policy: MovePolicy, r: AliasRecord, failOnUnmapped: bool)
    requires PolicyLabel(policy, r) == SENTINEL && Emitted(policy, [r], failOnUnmapped).Ok?
    ensures Run(Emitted(policy, [r], failOnUnmapped).value, CDB_ROOT) == [ExecutedIn(policy, CDB_ROOT, r)]
  {
    assert SortAliasRecords([r]) == [r] by { assert Sort(SortKey, [r][1..]) == []; }
    RunEmitted(policy, [r], failOnUnmapped, CDB_ROOT);
    RunStep(policy, r, SENTINEL, SENTINEL, Body(policy, [r][1..], SENTINEL), CDB_ROOT);
    assert Run(Body(policy, [r][1..], SENTINEL), CDB_ROOT) == [];
  }

  /** A PDB that bears the sentinel's name receives its first move in the root. */
  lemma SentinelNameMisroutes()
    ensures var policy := MovePolicy("+DATA", [("A", SENTINEL)], false, false, None, None, None);
            var r := AliasRecord(DATAFILE, "+DATA/x", "+DATA/y", Some("A"), "+DATA", None);
            Emitted(policy, [r], true).Ok?
            && IntendedContainer(policy, r.pdbGuid) == SENTINEL
            && Run(Emitted(policy, [r], true).value, CDB_ROOT) == [ExecutedIn(policy, CDB_ROOT, r)]
  {
    var policy := MovePolicy("+DATA", [("A", SENTINEL)], false, false, None, None, None);
    var r := AliasRecord(DATAFILE, "+DATA/x", "+DATA/y", Some("A"), "+DATA", None);
    assert Upper("A") == "A";
    assert UpperKeyed(policy.pdbGuidMap[..0]) == map[];
    assert UpperKeyed(policy.pdbGuidMap) == map["A" := SENTINEL];
    assert UnmappedSet([r][1..], UpperKeyed(policy.pdbGuidMap).Keys) == [];
    assert UnmappedSet([r], UpperKeyed(policy.pdbGuidMap).Keys) == [];
    LoneSentinelStays(policy, r, true);
  }

  /** A lower-case GUID passes the strict check, is not found by the look-up and is routed to a placeholder. */
  lemma LowerCaseGuidMisroutes()
    ensures var policy := MovePolicy("+DATA", [("A", "SALES")], false, false, None, None, None);
            var r := AliasRecord(DATAFILE, "+DATA/x", "+DATA/y", Some("a"), "+DATA", None);
            Emitted(policy, [r], true).Ok?
            && IntendedContainer(policy, r.pdbGuid) == "SALES"
            && PolicyLabel(policy, r) == "PDB_GUID_a"
  {
    var policy := MovePolicy("+DATA", [("A", "SALES")], false, false, None, None, None);
    var r := AliasRecord(DATAFILE, "+DATA/x", "+DATA/y", Some("a"), "+DATA", None);
    assert Upper("A") == "A" && Upper("a") == "A" && "a" != "A";
    assert UpperKeyed(policy.pdbGuidMap[..0]) == map[];
    assert UpperKeyed(policy.pdbGuidMap) == map["A" := "SALES"];
    assert UnmappedSet([r][1..], UpperKeyed(policy.pdbGuidMap).Keys) == [];
    assert UnmappedSet([r], UpperKeyed(policy.pdbGuidMap).Keys) == [];
  }

  // ---------------------------------------------------------------- in which order

  function FoldedGroup(r: AliasRecord): string {
    Casefold(r.diskGroup)
  }

  /** A missing database name counts as empty. */
  function FoldedDatabase(r: AliasRecord): string {
    match r.databaseName case Some(name) => Casefold(name) case None => ""
  }

  /** A missing GUID counts as empty. */
  function GuidOrEmpty(r: AliasRecord): string {
    match r.pdbGuid case Some(guid) => guid case None => ""
  }

  /** Disk group first, then database, then GUID, then source path; disk group, database and path without case. */
  predicate FieldsAscend(a: AliasRecord, b: AliasRecord) {
    && StrLe(FoldedGroup(a), FoldedGroup(b))
    && (FoldedGroup(a) == FoldedGroup(b) ==>
         && StrLe(FoldedDatabase(a), FoldedDatabase(b))
         && (FoldedDatabase(a) == FoldedDatabase(b) ==>
              && StrLe(GuidOrEmpty(a), GuidOrEmpty(b))
              && (GuidOrEmpty(a) == GuidOrEmpty(b) ==> StrLe(Casefold(a.sourcePath), Casefold(b.sourcePath)))))
  }

  /** Records that the order does not tell apart. */
  predicate SameFields(a: AliasRecord, b: AliasRecord) {
    && FoldedGroup(a) == FoldedGroup(b) && FoldedDatabase(a) == FoldedDatabase(b)
    && GuidOrEmpty(a) == GuidOrEmpty(b) && Casefold(a.sourcePath) == Casefold(b.sourcePath)
  }

  lemma FourStrings(a: Key, b: Key)
    requires |a| == 4 && |b| == 4 && KeyLe(a, b)
    ensures StrLe(a[0], b[0])
    ensures a[0] == b[0] ==> StrLe(a[1], b[1])
    ensures a[0] == b[0] && a[1] == b[1] ==> StrLe(a[2], b[2])
    ensures a[0] == b[0] && a[1] == b[1] && a[2] == b[2] ==> StrLe(a[3], b[3])
  {
    KeyOrder();
    LexReflexive(CharLe, a[0]);
    LexReflexive(CharLe, a[1]);
    LexReflexive(CharLe, a[2]);
    LexReflexive(CharLe, a[3]);
    assert a[1..][1..] == a[2..] && b[1..][1..] == b[2..];
    assert a[2..][1..] == a[3..] && b[2..][1..] == b[3..];
    assert KeyLe(a[1..], b[1..]) || a[0] != b[0];
    assert KeyLe(a[2..], b[2..]) || a[0] != b[0] || a[1] != b[1];
    assert KeyLe(a[3..], b[3..]) || a[0] != b[0] || a[1] != b[1] || a[2] != b[2];
  }

  lemma KeyIsFields(a: AliasRecord, b: AliasRecord)
    ensures KeyLe(SortKey(a), SortKey(b)) ==> FieldsAscend(a, b)
    ensures SortKey(a) == SortKey(b) <==> SameFields(a, b)
  {
    if KeyLe(SortKey(a), SortKey(b)) { FourStrings(SortKey(a), SortKey(b)); }
    assert Casefold("") == "";
    assert SortKey(a)[0] == FoldedGroup(a) && SortKey(a)[1] == FoldedDatabase(a)
           && SortKey(a)[2] == GuidOrEmpty(a) && SortKey(a)[3] == Casefold(a.sourcePath);
    assert SortKey(b)[0] == FoldedGroup(b) && SortKey(b)[1] == FoldedDatabase(b)
           && SortKey(b)[2] == GuidOrEmpty(b) && SortKey(b)[3] == Casefold(b.sourcePath);
  }

  function Like(r: AliasRecord): AliasRecord -> bool {
    (x: AliasRecord) => SameFields(x, r)
  }

  lemma {:induction false} WithKeyIsLike(r: AliasRecord, xs: seq<AliasRecord>)
    ensures WithKey(SortKey, SortKey(r), xs) == Filter(Like(r), xs)
  {
    if xs != [] {
      KeyIsFields(xs[0], r);
      WithKeyIsLike(r, xs[1..]);
    }
  }

  /** The records are moved by ascending disk group, database, GUID and source path, in this order of significance; what
      these fields do not tell apart stays in input order. */
  lemma SortedByFields(records: seq<AliasRecord>)
    ensures var ordered := SortAliasRecords(records);
            && multiset(ordered) == multiset(records)
            && (forall i, j :: 0 <= i < j < |ordered| ==> FieldsAscend(ordered[i], ordered[j]))
            && (forall r :: Filter(Like(r), ordered) == Filter(Like(r), records))
  {
    var ordered := SortAliasRecords(records);
    SortIsStable(SortKey, records);
    SortContents(SortKey, records);
    forall i, j | 0 <= i < j < |ordered| ensures FieldsAscend(ordered[i], ordered[j]) {
      assert KeyLe(SortKey(ordered[i]), SortKey(ordered[j]));
      KeyIsFields(ordered[i], ordered[j]);
    }
    forall r ensures Filter(Like(r), ordered) == Filter(Like(r), records) {
      WithKeyIsLike(r, ordered);
      WithKeyIsLike(r, records);
    }
  }

  /** The move of a record: its own type and source, the policy's destination and mode. */
  predicate MovesRecord(policy: MovePolicy, m: Executed, r: AliasRecord) {
    && m.kind == r.fileType && m.source == r.sourcePath
    && m.destination == policy.destinationDiskGroup && m.online == policy.online
  }

  /** The container a GUID of the map stands for, without case; the root without a GUID. */
  ghost predicate RunsWhereMapped(policy: MovePolicy, m: Executed, r: AliasRecord) {
    match r.pdbGuid
    case None => m.container == "CDB$ROOT"
    case Some(guid) =>
      if guid == "" then m.container == "CDB$ROOT"
      else if Upper(guid) in UpperKeyed(policy.pdbGuidMap)
      then m.container == UpperKeyed(policy.pdbGuidMap)[Upper(guid)]
      else
        exists head :: head <= guid && |head| == (if |guid| < 8 then |guid| else 8) && m.container == "PDB_GUID_" + head
  }

  lemma EveryMoveIsARecords(policy: MovePolicy, records: seq<AliasRecord>, failOnUnmapped: bool, container: string)
    requires Emitted(policy, records, failOnUnmapped).Ok?
    ensures var moves := Run(Emitted(policy, records, failOnUnmapped).value, container);
            var ordered := SortAliasRecords(records);
            |moves| == |ordered| && forall i :: 0 <= i < |moves| ==> MovesRecord(policy, moves[i], ordered[i])
  {
    RunEmitted(policy, records, failOnUnmapped, container);
    RunBody(policy, SortAliasRecords(records), SENTINEL, container);
  }

  lemma IntendedIsMapped(policy: MovePolicy, r: AliasRecord)
    ensures RunsWhereMapped(policy, ExecutedIn(policy, IntendedContainer(policy, r.pdbGuid), r), r)
  {
    if Truthy(r.pdbGuid) && Upper(r.pdbGuid.value) !in UpperKeyed(policy.pdbGuidMap) {
      var guid := r.pdbGuid.value;
      var head := if |guid| <= 8 then guid else guid[..8];
      assert head <= guid && IntendedContainer(policy, r.pdbGuid) == "PDB_GUID_" + head;
    }
  }

  /** What a script that runs as intended does, field by field: one move per record, by ascending disk group, database,
      GUID and path. */
  lemma ScriptRunsInFieldOrder(policy: MovePolicy, records: seq<AliasRecord>, failOnUnmapped: bool)
    returns (ordered: seq<AliasRecord>)
    requires Emitted(policy, records, failOnUnmapped).Ok?
    ensures multiset(ordered) == multiset(records)
    ensures forall i, j :: 0 <= i < j < |ordered| ==> FieldsAscend(ordered[i], ordered[j])
    ensures forall r :: Filter(Like(r), ordered) == Filter(Like(r), records)
    ensures var moves := Run(Emitted(policy, records, failOnUnmapped).value, CDB_ROOT);
            && |moves| == |ordered|
            && (forall i :: 0 <= i < |moves| ==> MovesRecord(policy, moves[i], ordered[i]))
            && (NoPdbNamedSentinel(policy) && UpperGuids(records) ==>
                 forall i :: 0 <= i < |moves| ==> RunsWhereMapped(policy, moves[i], ordered[i]))
  {
    ordered := SortAliasRecords(records);
    SortedByFields(records);
    EveryMoveIsARecords(policy, records, failOnUnmapped, CDB_ROOT);
    if NoPdbNamedSentinel(policy) && UpperGuids(records) {
      UpperScriptExact(policy, records, failOnUnmapped);
      forall i | 0 <= i < |ordered|
        ensures RunsWhereMapped(policy, IntendedMoves(policy, ordered)[i], ordered[i])
      {
        IntendedIsMapped(policy, ordered[i]);
      }
    }
  }

  // ---------------------------------------------------------------- the frame of a script

  lemma {:induction false} BodyActs(policy: MovePolicy, ordered: seq<AliasRecord>, last: string)
    ensures forall s :: s in Body(policy, ordered, last) ==> !s.Inert?
    decreases |ordered|
  {
    if ordered != [] { BodyActs(policy, ordered[1..], PolicyLabel(policy, ordered[0])); }
  }

  /** Disclaimer, header and spooling come first in this order, the end of spooling and the footer last; header and
      footer are trimmed, and each part is there exactly when the policy has text for it. */
  lemma ScriptFrame(policy: MovePolicy, records: seq<AliasRecord>, failOnUnmapped: bool)
    returns (before: Script, moves: Script, after: Script)
    requires Emitted(policy, records, failOnUnmapped).Ok?
    ensures Emitted(policy, records, failOnUnmapped).value == before + moves + after
    ensures forall s :: s in moves ==> !s.Inert?
    ensures var header, spool := Truthy(policy.sqlHeader), Truthy(policy.spoolFile);
            && |before| == 1 + (if header then 1 else 0) + (if spool then 1 else 0)
            && before[0] == Inert(Disclaimer)
            && (header ==> before[1] == Inert(Custom(Strip(policy.sqlHeader.value))))
            && (spool ==> before[|before| - 1] == Inert(SpoolOn(policy.spoolFile.value)))
    ensures var footer, spool := Truthy(policy.sqlFooter), Truthy(policy.spoolFile);
            && |after| == (if footer then 1 else 0) + (if spool then 1 else 0)
            && (spool ==> after[0] == Inert(SpoolOff))
            && (footer ==> after[|after| - 1] == Inert(Custom(Strip(policy.sqlFooter.value))))
  {
    before, moves, after := Prologue(policy), Body(policy, SortAliasRecords(records), SENTINEL), Epilogue(policy);
    BodyActs(policy, SortAliasRecords(records), SENTINEL);
  }

  /** Long GUIDs share their placeholder exactly when they share their first eight characters. */
  lemma PlaceholdersShared(g: string, h: string)
    requires |g| >= 8 && |h| >= 8
    ensures Placeholder(g) == Placeholder(h) <==> g[..8] == h[..8]
  {
    assert Placeholder(g)[9..] == (if |g| <= 8 then g else g[..8]) == g[..8];
    assert Placeholder(h)[9..] == (if |h| <= 8 then h else h[..8]) == h[..8];
  }

  lemma {:induction false} DoublingGrows(s: string)
    ensures |DoubleQuotes(s)| >= |s|
  {
    if s != [] { DoublingGrows(s[1..]); }
  }

  /** Which names are left unquoted: a letter, then letters, digits, `_`, `$` and `#`. */
  lemma BareNamesSpelledOut(name: string)
    ensures ContainerClause(name) == name <==>
            && name != "" && IsLetter(name[0])
            && forall c :: c in name ==> IsLetter(c) || IsDigit(c) || c as int in {95, 36, 35}
  {
    if !IsBare(name) { assert |ContainerClause(name)| > |name| by { DoublingGrows(name); } }
  }

  // ---------------------------------------------------------------- how many switches

  function Containers(moves: seq<Executed>): seq<string> {
    Map((m: Executed) => m.container, moves)
  }

  /** Any script needs a switch for every change of container between the moves it performs. */
  lemma {:induction false} SwitchesNeeded(script: Script, container: string)
    ensures Changes([container] + Containers(Run(script, container))) <= Switches(script)
  {
    if script != [] {
      var s := script[0];
      var next := NextContainer(s, container);
      SwitchesNeeded(script[1..], next);
      var rest := Containers(Run(script[1..], next));
      if s.Move? {
        assert Containers(Run(script, container)) == [container] + rest;
        assert ([container] + ([container] + rest))[1..] == [container] + rest;
      } else {
        assert ([container] + rest)[1..] == rest && ([next] + rest)[1..] == rest;
      }
    }
  }

  /** Up to case: the disk group, the database and the GUID of a record. */
  function Triple(r: AliasRecord): Key {
    SortKey(r)[..3]
  }

  lemma TripleDecidesLabel(policy: MovePolicy, a: AliasRecord, b: AliasRecord)
    requires Triple(a) == Triple(b)
    ensures PolicyLabel(policy, a) == PolicyLabel(policy, b)
  {
    assert Triple(a)[2] == a.pdbGuid.GetOr("") && Triple(b)[2] == b.pdbGuid.GetOr("");
  }

  lemma TriplesAscend(a: AliasRecord, b: AliasRecord)
    requires KeyLe(SortKey(a), SortKey(b))
    ensures KeyLe(Triple(a), Triple(b))
  {
    LexOfPrefixes(StrLe, SortKey(a), SortKey(b), 3);
  }

  lemma BetweenEqualTriples(a: AliasRecord, b: AliasRecord, c: AliasRecord)
    requires KeyLe(SortKey(a), SortKey(b)) && KeyLe(SortKey(b), SortKey(c)) && Triple(a) == Triple(c)
    ensures Triple(b) == Triple(a)
  {
    TriplesAscend(a, b);
    TriplesAscend(b, c);
    KeyOrder();
  }

  lemma SortedTriplesContiguous(records: seq<AliasRecord>)
    ensures Contiguous(Map(Triple, SortAliasRecords(records)))
  {
    var ordered := SortAliasRecords(records);
    var triples := Map(Triple, ordered);
    SortIsStable(SortKey, records);
    forall i, j, k | 0 <= i <= j <= k < |triples| && triples[i] == triples[k] ensures triples[j] == triples[i] {
      if i < j < k {
        assert KeyLe(SortKey(ordered[i]), SortKey(ordered[j]));
        assert KeyLe(SortKey(ordered[j]), SortKey(ordered[k]));
        BetweenEqualTriples(ordered[i], ordered[j], ordered[k]);
      }
    }
  }

  lemma SameTriples(xs: seq<AliasRecord>, ys: seq<AliasRecord>)
    requires forall r :: r in xs <==> r in ys
    ensures Values(Map(Triple, xs)) == set r | r in ys :: Triple(r)
  {
    var triples := Map(Triple, xs);
    forall r | r in ys ensures Triple(r) in triples {
      var i :| 0 <= i < |xs| && xs[i] == r;
      assert triples[i] == Triple(r);
    }
    forall t | t in triples ensures exists r :: r in ys && t == Triple(r) {
      var i :| 0 <= i < |triples| && triples[i] == t;
      assert xs[i] in xs;
    }
  }

  /** Never more switches than distinct (disk group, database, GUID) triples, whatever the names. */
  lemma SwitchesBoundedByTriples(policy: MovePolicy, records: seq<AliasRecord>, failOnUnmapped: bool)
    requires Emitted(policy, records, failOnUnmapped).Ok?
    ensures Switches(Emitted(policy, records, failOnUnmapped).value) <= |set r | r in records :: Triple(r)|
  {
    var ordered := SortAliasRecords(records);
    var labels, triples := Labels(policy, ordered), Map(Triple, ordered);
    RunEmitted(policy, records, failOnUnmapped, CDB_ROOT);
    BodySwitches(policy, ordered, SENTINEL);
    RootIsNotSentinel();
    if ordered != [] {
      KeptExact(labels, CDB_ROOT, SENTINEL);
      forall i, j | 0 <= i < |ordered| && 0 <= j < |ordered| && triples[i] == triples[j]
        ensures labels[i] == labels[j]
      {
        TripleDecidesLabel(policy, ordered[i], ordered[j]);
      }
      CoarserChangesLess(triples, labels);
      SortedTriplesContiguous(records);
      ContiguousChanges(triples);
      SortMembers(SortKey, records);
      SameTriples(ordered, records);
    }
  }

  /** The number of switches is the number of label changes, counted from the root, if and only if the labels
      are safe; and then no script that performs the same moves from the root has fewer. */
  lemma SwitchesExactAndMinimal(policy: MovePolicy, records: seq<AliasRecord>, failOnUnmapped: bool, other: Script)
    requires Emitted(policy, records, failOnUnmapped).Ok?
    ensures var script := Emitted(policy, records, failOnUnmapped).value;
            var labels := Labels(policy, SortAliasRecords(records));
            && (Switches(script) == Changes([CDB_ROOT] + labels) <==> SentinelSafe(labels, CDB_ROOT, SENTINEL))
            && (SentinelSafe(labels, CDB_ROOT, SENTINEL) && Run(other, CDB_ROOT) == Run(script, CDB_ROOT) ==>
                 Switches(script) <= Switches(other))
  {
    var ordered := SortAliasRecords(records);
    var labels := Labels(policy, ordered);
    RunEmitted(policy, records, failOnUnmapped, CDB_ROOT);
    BodySwitches(policy, ordered, SENTINEL);
    RootIsNotSentinel();
    KeptExact(labels, CDB_ROOT, SENTINEL);
    ScriptFollowsLabels(policy, records, failOnUnmapped);
    assert Containers(LabelledMoves(policy, ordered)) == labels;
    SwitchesNeeded(other, CDB_ROOT);
  }

  // ---------------------------------------------------------------- order of the input

  lemma {:induction false} CountInDistinct(xs: seq<string>, x: string)
    requires Distinct(xs)
    ensures multiset(xs)[x] == if x in xs then 1 else 0
  {
    if xs != [] {
      CountInDistinct(xs[1..], x);
      assert xs == [xs[0]] + xs[1..];
    }
  }

  lemma DistinctSameContents(xs: seq<string>, ys: seq<string>)
    requires Distinct(xs) && Distinct(ys)
    requires forall x :: x in xs <==> x in ys
    ensures multiset(xs) == multiset(ys)
  {
    forall x ensures multiset(xs)[x] == multiset(ys)[x] {
      CountInDistinct(xs, x);
      CountInDistinct(ys, x);
    }
  }

  lemma UnmappedDependsOnContents(policy: MovePolicy, xs: seq<AliasRecord>, ys: seq<AliasRecord>)
    requires forall r :: r in xs <==> r in ys
    ensures FindUnmapped(policy, xs) == FindUnmapped(policy, ys)
  {
    var mapped := UpperKeyed(policy.pdbGuidMap).Keys;
    var us, vs := UnmappedSet(xs, mapped), UnmappedSet(ys, mapped);
    UnmappedSetMembers(xs, mapped);
    UnmappedSetMembers(ys, mapped);
    forall g ensures g in us <==> g in vs {
      if g in us {
        var i :| 0 <= i < |xs| && Truthy(xs[i].pdbGuid) && g == Upper(xs[i].pdbGuid.value);
        assert xs[i] in ys;
        var j :| 0 <= j < |ys| && ys[j] == xs[i];
      }
      if g in vs {
        var i :| 0 <= i < |ys| && Truthy(ys[i].pdbGuid) && g == Upper(ys[i].pdbGuid.value);
        assert ys[i] in xs;
        var j :| 0 <= j < |xs| && xs[j] == ys[i];
      }
    }
    DistinctSameContents(us, vs);
    assert forall a, b :: NameKey(a) == NameKey(b) ==> NameKey(a)[0] == NameKey(b)[0];
    PermutationsSortAlike(NameKey, us, vs);
  }

  /** Permuting records with pairwise distinct sort keys changes neither the script nor the error. */
  lemma OrderIndependent(policy: MovePolicy, xs: seq<AliasRecord>, ys: seq<AliasRecord>, failOnUnmapped: bool)
    requires multiset(xs) == multiset(ys)
    requires DistinctKeys(SortKey, xs)
    ensures Emitted(policy, xs, failOnUnmapped) == Emitted(policy, ys, failOnUnmapped)
  {
    forall r ensures r in xs <==> r in ys {
      assert r in xs <==> r in multiset(xs);
      assert r in ys <==> r in multiset(ys);
    }
    UnmappedDependsOnContents(policy, xs, ys);
    DistinctKeysOfPermutation(SortKey, xs, ys);
    PermutationsSortAlike(SortKey, xs, ys);
  }
}
