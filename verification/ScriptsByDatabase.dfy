/** One script per database, as projections of the whole script
    (`emit_by_database` in asm_cleanup/sql/move_sql_emitter.py). */
module ScriptsByDatabase {
  import opened Wrappers
  import opened Sequences
  import opened Text
  import opened Ordering
  import opened Dicts
  import opened AliasRecords
  import opened Grouping
  import opened MoveSql

  type Groups = Dict<seq<AliasRecord>>

  type Scripts = seq<(string, Script)>

  function DatabaseOf(r: AliasRecord): string {
    if Truthy(r.databaseName) then r.databaseName.value else "UNKNOWN"
  }

  function InDatabase(name: string): AliasRecord -> bool {
    Named(DatabaseOf, name)
  }

  function GroupKey(item: (string, seq<AliasRecord>)): Key {
    [Casefold(item.0)]
  }

  /** The first group that is blocked decides the error. */
  function EmitGroups(policy: MovePolicy, groups: Groups, failOnUnmapped: bool): Result<Scripts, seq<string>> {
    if groups == [] then Ok([])
    else
      match Emitted(policy, groups[0].1, failOnUnmapped)
      case Err(e) => Err(e)
      case Ok(script) =>
        match EmitGroups(policy, groups[1..], failOnUnmapped)
        case Err(e) => Err(e)
        case Ok(rest) => Ok([(groups[0].0, script)] + rest)
  }

  function ByDatabase(policy: MovePolicy, records: seq<AliasRecord>, failOnUnmapped: bool)
    : Result<Scripts, seq<string>>
  {
    EmitGroups(policy, Sort(GroupKey, GroupBy(DatabaseOf, records)), failOnUnmapped)
  }

  method EmitByDatabase(policy: MovePolicy, records: seq<AliasRecord>, failOnUnmapped: bool)
    returns (r: Result<Scripts, seq<string>>)
    ensures r == ByDatabase(policy, records, failOnUnmapped)
  {
    var groups: Groups := [];
    for i := 0 to |records|
      invariant groups == GroupBy(DatabaseOf, records[..i])
    {
      assert records[..i + 1][..i] == records[..i];
      var name := if Truthy(records[i].databaseName) then records[i].databaseName.value else "UNKNOWN";
      groups := Put(groups, name, Get(groups, name).GetOr([]) + [records[i]]);
    }
    assert records[..|records|] == records;
    var ordered := Sort(GroupKey, groups);
    var scripts: Scripts := [];
    assert ordered[0..] == ordered;
    assert forall rest: Scripts :: [] + rest == rest;
    for i := 0 to |ordered|
      invariant EmitGroups(policy, ordered, failOnUnmapped) ==
                match EmitGroups(policy, ordered[i..], failOnUnmapped)
                { case Ok(rest) => Ok(scripts + rest) case Err(e) => Err(e) }
    {
      assert ordered[i..][0] == ordered[i] && ordered[i..][1..] == ordered[i + 1..];
      var one := Emit(policy, ordered[i].1, failOnUnmapped);
      if one.Err? { return Err(one.error); }
      ghost var before := scripts;
      scripts := scripts + [(ordered[i].0, one.value)];
      assert forall rest: Scripts :: before + ([(ordered[i].0, one.value)] + rest) == scripts + rest;
    }
    assert scripts + [] == scripts;
    r := Ok(scripts);
  }

  // ---------------------------------------------------------------- errors

  lemma {:induction false} EmitGroupsExact(policy: MovePolicy, groups: Groups, failOnUnmapped: bool)
    ensures var r := EmitGroups(policy, groups, failOnUnmapped);
            && (r.Ok? <==> forall i :: 0 <= i < |groups| ==> Emitted(policy, groups[i].1, failOnUnmapped).Ok?)
            && (r.Ok? ==> |r.value| == |groups| && forall i :: 0 <= i < |groups| ==>
                 r.value[i] == (groups[i].0, Emitted(policy, groups[i].1, failOnUnmapped).value))
            && (r.Err? ==> exists i :: 0 <= i < |groups| && Emitted(policy, groups[i].1, failOnUnmapped) == Err(r.error)
                                       && forall j :: 0 <= j < i ==> Emitted(policy, groups[j].1, failOnUnmapped).Ok?)
  {
    if groups != [] {
      var tail := groups[1..];
      EmitGroupsExact(policy, tail, failOnUnmapped);
      assert forall i :: 0 <= i < |tail| ==> tail[i] == groups[i + 1];
      var first, rest := Emitted(policy, groups[0].1, failOnUnmapped), EmitGroups(policy, tail, failOnUnmapped);
      if first.Ok? && rest.Ok? {
        forall i | 0 <= i < |groups| ensures Emitted(policy, groups[i].1, failOnUnmapped).Ok?
        {
          if i > 0 { assert tail[i - 1] == groups[i]; }
        }
      } else if first.Ok? {
        var i :| 0 <= i < |tail| && Emitted(policy, tail[i].1, failOnUnmapped) == Err(rest.error)
                 && forall j :: 0 <= j < i ==> Emitted(policy, tail[j].1, failOnUnmapped).Ok?;
        assert groups[i + 1] == tail[i];
        forall j | 0 <= j < i + 1 ensures Emitted(policy, groups[j].1, failOnUnmapped).Ok? {
          if j > 0 { assert tail[j - 1] == groups[j]; }
        }
      }
    }
  }

  lemma UnmappedOfPart(policy: MovePolicy, part: seq<AliasRecord>, whole: seq<AliasRecord>)
    requires forall r :: r in part ==> r in whole
    ensures forall g :: g in FindUnmapped(policy, part) ==> g in FindUnmapped(policy, whole)
  {
    FindUnmappedExact(policy, part);
    FindUnmappedExact(policy, whole);
  }

  /** The split is blocked exactly when the whole is, and reports nothing that the whole does not report. */
  lemma SplitRaisesExactlyWhenWholeDoes(policy: MovePolicy, records: seq<AliasRecord>, failOnUnmapped: bool)
    ensures ByDatabase(policy, records, failOnUnmapped).Err? <==> Emitted(policy, records, failOnUnmapped).Err?
    ensures ByDatabase(policy, records, failOnUnmapped).Err? ==>
              && ByDatabase(policy, records, failOnUnmapped).error != []
              && forall g :: g in ByDatabase(policy, records, failOnUnmapped).error
                             ==> g in Emitted(policy, records, failOnUnmapped).error
  {
    var groups := Sort(GroupKey, GroupBy(DatabaseOf, records));
    SortedGroups(DatabaseOf, GroupKey, records);
    EmitGroupsExact(policy, groups, failOnUnmapped);
    forall i | 0 <= i < |groups|
      ensures forall g :: g in FindUnmapped(policy, groups[i].1) ==> g in FindUnmapped(policy, records)
    {
      assert groups[i] in groups;
      FilterMembers(InDatabase(groups[i].0), records);
      UnmappedOfPart(policy, groups[i].1, records);
    }
    if Emitted(policy, records, failOnUnmapped).Err? {
      var g := FindUnmapped(policy, records)[0];
      FindUnmappedExact(policy, records);
      assert g in FindUnmapped(policy, records);
      var r :| r in records && Truthy(r.pdbGuid) && g == Upper(r.pdbGuid.value);
      var i :| 0 <= i < |groups| && groups[i].0 == DatabaseOf(r);
      assert groups[i] in groups;
      FilterMembers(InDatabase(groups[i].0), records);
      assert r in groups[i].1;
      FindUnmappedExact(policy, groups[i].1);
      assert IsUnmapped(policy, groups[i].1, g);
      assert Emitted(policy, groups[i].1, failOnUnmapped).Err?;
    } else {
      forall i | 0 <= i < |groups| ensures Emitted(policy, groups[i].1, failOnUnmapped).Ok? {
        HeadMember(FindUnmapped(policy, groups[i].1));
      }
    }
  }

  // ---------------------------------------------------------------- projections

  lemma SafeScriptRunsLabelled(policy: MovePolicy, records: seq<AliasRecord>, failOnUnmapped: bool)
    requires NoPdbNamedSentinel(policy)
    requires Emitted(policy, records, failOnUnmapped).Ok?
    ensures Run(Emitted(policy, records, failOnUnmapped).value, CDB_ROOT)
            == LabelledMoves(policy, SortAliasRecords(records))
  {
    var ordered := SortAliasRecords(records);
    NoSentinelNameIsSafe(policy, ordered);
    ScriptFollowsLabels(policy, records, failOnUnmapped);
  }

  function OrderedGroups(records: seq<AliasRecord>): Groups {
    Sort(GroupKey, GroupBy(DatabaseOf, records))
  }

  /** Script by script: the group's name, and the group's moves in the whole script's order. */
  lemma ScriptAt(policy: MovePolicy, records: seq<AliasRecord>, failOnUnmapped: bool, i: nat)
    requires NoPdbNamedSentinel(policy) && ByDatabase(policy, records, failOnUnmapped).Ok?
    requires i < |OrderedGroups(records)|
    ensures var scripts := ByDatabase(policy, records, failOnUnmapped).value;
            && |scripts| == |OrderedGroups(records)| && scripts[i].0 == OrderedGroups(records)[i].0
            && Run(scripts[i].1, CDB_ROOT)
               == LabelledMoves(policy, Filter(InDatabase(scripts[i].0), SortAliasRecords(records)))
  {
    var groups := OrderedGroups(records);
    SortedGroups(DatabaseOf, GroupKey, records);
    EmitGroupsExact(policy, groups, failOnUnmapped);
    assert groups[i] in groups;
    SafeScriptRunsLabelled(policy, groups[i].1, failOnUnmapped);
    SortCommutesWithFilter(SortKey, InDatabase(groups[i].0), records);
  }

  function NameOfScript(s: (string, Script)): Key {
    [Casefold(s.0)]
  }

  lemma ScriptNames(records: seq<AliasRecord>, scripts: Scripts)
    requires |scripts| == |OrderedGroups(records)|
    requires forall i :: 0 <= i < |scripts| ==> scripts[i].0 == OrderedGroups(records)[i].0
    ensures IsDict(scripts) && SortedBy(NameOfScript, scripts)
    ensures forall r :: r in records ==> HasKey(scripts, DatabaseOf(r))
  {
    var groups := OrderedGroups(records);
    SortedGroups(DatabaseOf, GroupKey, records);
    forall i, j | 0 <= i < j < |scripts| ensures KeyLe(NameOfScript(scripts[i]), NameOfScript(scripts[j])) {
      assert KeyLe(GroupKey(groups[i]), GroupKey(groups[j]));
    }
    forall r | r in records ensures HasKey(scripts, DatabaseOf(r)) {
      var i :| 0 <= i < |groups| && groups[i].0 == DatabaseOf(r);
      assert scripts[i].0 == DatabaseOf(r);
    }
  }

  /** Each script performs the moves of its own database and no others, in the whole script's order and
      containers; the names are distinct and ascending up to case, and every record's database has a script. */
  lemma ScriptsAreProjections(policy: MovePolicy, records: seq<AliasRecord>, failOnUnmapped: bool)
    requires NoPdbNamedSentinel(policy)
    requires ByDatabase(policy, records, failOnUnmapped).Ok?
    ensures Emitted(policy, records, failOnUnmapped).Ok?
    ensures Run(Emitted(policy, records, failOnUnmapped).value, CDB_ROOT)
            == LabelledMoves(policy, SortAliasRecords(records))
    ensures forall s :: s in ByDatabase(policy, records, failOnUnmapped).value ==>
              Run(s.1, CDB_ROOT) == LabelledMoves(policy, Filter(InDatabase(s.0), SortAliasRecords(records)))
    ensures IsDict(ByDatabase(policy, records, failOnUnmapped).value)
    ensures SortedBy(NameOfScript, ByDatabase(policy, records, failOnUnmapped).value)
    ensures forall r :: r in records ==> HasKey(ByDatabase(policy, records, failOnUnmapped).value, DatabaseOf(r))
    ensures forall r :: r in records ==>
              HasKey(ByDatabase(policy, records, failOnUnmapped).value,
                     match r.databaseName
                     { case Some(name) => if name == "" then "UNKNOWN" else name case None => "UNKNOWN" })
  {
    var groups, scripts := OrderedGroups(records), ByDatabase(policy, records, failOnUnmapped).value;
    SplitRaisesExactlyWhenWholeDoes(policy, records, failOnUnmapped);
    SafeScriptRunsLabelled(policy, records, failOnUnmapped);
    EmitGroupsExact(policy, groups, failOnUnmapped);
    forall i | 0 <= i < |scripts|
      ensures scripts[i].0 == groups[i].0
      ensures Run(scripts[i].1, CDB_ROOT)
              == LabelledMoves(policy, Filter(InDatabase(scripts[i].0), SortAliasRecords(records)))
    {
      ScriptAt(policy, records, failOnUnmapped, i);
    }
    ScriptNames(records, scripts);
  }

  // ---------------------------------------------------------------- conservation

  function RunAll(scripts: Scripts): seq<Executed> {
    if scripts == [] then [] else Run(scripts[0].1, CDB_ROOT) + RunAll(scripts[1..])
  }

  function Names(scripts: Scripts): seq<string> {
    Map((s: (string, Script)) => s.0, scripts)
  }

  lemma {:induction false} RunAllIsParts(scripts: Scripts, ordered: seq<AliasRecord>, exec: AliasRecord -> Executed)
    requires forall s :: s in scripts ==> Run(s.1, CDB_ROOT) == Map(exec, Filter(InDatabase(s.0), ordered))
    ensures RunAll(scripts) == Parts(exec, DatabaseOf, Names(scripts), ordered)
  {
    if scripts != [] {
      assert scripts[0] in scripts;
      assert Names(scripts)[1..] == Names(scripts[1..]);
      RunAllIsParts(scripts[1..], ordered, exec);
    }
  }

  /** Taken together the scripts perform exactly the moves of the whole script. */
  lemma ScriptsConserveMoves(policy: MovePolicy, records: seq<AliasRecord>, failOnUnmapped: bool)
    requires NoPdbNamedSentinel(policy)
    requires ByDatabase(policy, records, failOnUnmapped).Ok?
    ensures Emitted(policy, records, failOnUnmapped).Ok?
    ensures multiset(RunAll(ByDatabase(policy, records, failOnUnmapped).value))
            == multiset(Run(Emitted(policy, records, failOnUnmapped).value, CDB_ROOT))
  {
    ScriptsAreProjections(policy, records, failOnUnmapped);
    var scripts, ordered := ByDatabase(policy, records, failOnUnmapped).value, SortAliasRecords(records);
    var exec := (r: AliasRecord) => ExecutedIn(policy, PolicyLabel(policy, r), r);
    assert forall rs: seq<AliasRecord> :: LabelledMoves(policy, rs) == Map(exec, rs);
    SortMembers(SortKey, records);
    forall r | r in ordered ensures DatabaseOf(r) in Names(scripts) {
      var i :| 0 <= i < |scripts| && scripts[i].0 == DatabaseOf(r);
      assert Names(scripts)[i] == DatabaseOf(r);
    }
    PartsMakeTheWhole(exec, DatabaseOf, Names(scripts), ordered);
    RunAllIsParts(scripts, ordered, exec);
  }

  // ---------------------------------------------------------------- whose moves they are

  lemma {:induction false} MemberOfRunAll(scripts: Scripts, m: Executed) returns (i: nat)
    requires m in RunAll(scripts)
    ensures i < |scripts| && m in Run(scripts[i].1, CDB_ROOT)
  {
    if m in Run(scripts[0].1, CDB_ROOT) {
      i := 0;
    } else {
      i := MemberOfRunAll(scripts[1..], m);
      i := i + 1;
    }
  }

  lemma GroupWithin(records: seq<AliasRecord>, i: nat)
    requires i < |OrderedGroups(records)|
    ensures forall r :: r in OrderedGroups(records)[i].1 ==> r in records
  {
    var groups := OrderedGroups(records);
    SortedGroups(DatabaseOf, GroupKey, records);
    assert groups[i] in groups;
    FilterMembers(InDatabase(groups[i].0), records);
  }

  /** Every executed move is one of a record, whatever the names of the PDBs. */
  lemma MoveOfRecord(policy: MovePolicy, records: seq<AliasRecord>, failOnUnmapped: bool, m: Executed)
    returns (r: AliasRecord)
    requires ByDatabase(policy, records, failOnUnmapped).Ok?
    requires m in RunAll(ByDatabase(policy, records, failOnUnmapped).value)
    ensures r in records && MovesRecord(policy, m, r)
  {
    var scripts, groups := ByDatabase(policy, records, failOnUnmapped).value, OrderedGroups(records);
    EmitGroupsExact(policy, groups, failOnUnmapped);
    var i := MemberOfRunAll(scripts, m);
    var group := groups[i].1;
    EveryMoveIsARecords(policy, group, failOnUnmapped, CDB_ROOT);
    var moves := Run(scripts[i].1, CDB_ROOT);
    var k :| 0 <= k < |moves| && moves[k] == m;
    r := SortAliasRecords(group)[k];
    SortMembers(SortKey, group);
    GroupWithin(records, i);
  }
}
