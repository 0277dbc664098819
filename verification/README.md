# Verified model of the ASM walk-to-script pipeline

The program walks Oracle ASM directories, keeps what it saw as a text transcript, extracts alias
records from the listing rows, reconciles them with what the databases' dictionaries report, and
emits SQL scripts that move every file, switching to the right container before each move. This
project models that pipeline from the walk to the script and proves what it promises.

How the modules fit together:

- **Script emission.** `MoveSql` compiles sorted records to a script with redundant container
  switches left out, and defines a session that executes scripts, starting in `CDB$ROOT`. The
  central theorem is compiler correctness (`EmitterCorrect`) with the exact conditions behind it;
  `Elision` holds the container-independent core of the argument. `ScriptsByDatabase` proves that
  the per-database scripts are projections of the whole one. `Ordering` is the stable sort, proved
  to be the only stable sort, and `Grouping` the grouping by name.
- **Transcripts.** `Ansi` is the escape-sequence scanner, checked against the language of its
  pattern; `Transcript` the printer, the parser and the trip through a file.
- **Walking.** `Walker` is the recursive walker over a port, `Traversal` the theory of the tree
  that the port reports: pre-order, depth limits, bounds, what an observer sees.
- **Aliases and scans.** `AliasRecords` reads GUIDs, databases and disk groups off paths.
  `Inventories` extracts and deduplicates aliases, `Enrichment` reconciles them with the catalog and
  `Scan` composes scope, walk, catalog, enrichment, placeholder injection and emission. `PathWalks`
  joins the walker to the paths of a scope. `Attribution` follows a walk root to the records found
  below it and on to the script that moves them. `Agreement` compares the persisted rows with the
  scripts.
- **Scope and GUID maps.** `Paths`, `Scope` and `GuidMaps`; `FirstOccurrence` is the
  order-preserving deduplication that they share.
- **Many paths at once.** `Artifacts` names files. `ConcurrentRun` is a machine of workers that
  share a directory and a thread that collects their results; `Orchestrator` instantiates it with the
  processing of a path, and says what the scripts that it writes do.

Code that updates variables, fields or a session is modelled by methods and classes, each proved
equal to a specification function; the lemmas then state what that function means. A port is a
function from a path to listing rows, with `None` where the program raises; dictionaries keep
insertion order (`Dicts`).

Where the code does not do what a reader of its documentation would expect, the code is modelled and
the exact condition is proved:

- The strict check compares GUIDs without case, the look-up of the container does not
  (`LabelIsIntended`, `ScriptMeansRecordsExactly`, with `LowerCaseGuidMisroutes` as the witness). All
  records that the pipeline itself produces carry upper-case GUIDs (`WalkedGuidsAreUpper`,
  `ScanMovesEveryRecordOnce`, `FixScriptMovesAliases`).
- A PDB that bears the name of the emitter's internal start marker can have a switch left out
  (`ScriptFollowsLabels`, `SwitchesExactAndMinimal`, `SentinelNameMisroutes`).
- A transcript restores an inventory only when its paths and rows are of a certain shape
  (`RoundTripExact`, and through a file `LoadRestoresExactly`; `DirRowMisparses` is an inventory that
  comes back with two directories instead of one).
- Stripping escape sequences is one pass that a second pass can improve on (`NotIdempotent`). A second
  pass changes nothing exactly when no unmatched ESC of the input is followed by text that, with complete
  sequences skipped, completes a sequence (`IdempotentExactly`); no ESC is left exactly when every ESC of
  the input starts a complete sequence (`StripLeavesNoEscExactly`).
- The deduplication key joins its fields with a bar (`BarsCollide`). The key of an alias belongs to no
  other alias exactly when neither its source nor its target holds a bar (`KeyIdentifiesExactly`); between
  two aliases whose sources hold none it decides whatever their targets hold (`KeyIsInjective`).
- A persisted row can name another container than the one that the emitter selects for its record.
  For a walked alias this happens when it carries no GUID and the catalog puts its file in a PDB
  (`GuidlessRowDisagrees`). For a file that no alias mentions it happens with and without a GUID, since
  its row repeats the catalog while the emitter goes by the GUID in the path: with a GUID that discovery
  does not report, the script switches to a placeholder (`UnknownGuidRowDisagrees`).
  `ScanRowsAgreeExactly` says exactly when all rows of a scan agree, and that, as long as no PDB is named
  like the start marker, this is when running the scripts moves every record in the container that its
  row names; with such a PDB it need not be (`MarkerRowMisleads`).
- One move per record is not one move per file: two aliases of one catalog file move it twice
  (`SharedTargetMovedTwice`; exactly when not: `ScanMovesEachFileOnceExactly`).

## Model

| member | source | states |
|---|---|---|
| MoveSql.ClauseRoundTrip | asm_cleanup/sql/move_sql_emitter.py:52-55 | the container clause, bare or quoted with doubled quotes, decodes to the original name, for every string |
| MoveSql.ClauseInjective | asm_cleanup/sql/move_sql_emitter.py:52-55 | two names give the same clause if and only if they are equal |
| MoveSql.Emit | asm_cleanup/sql/move_sql_emitter.py:113-181 | the building of the script, or the error listing unmapped GUIDs, computes the specification that the lemmas below are about |
| MoveSql.EmitMoves | asm_cleanup/sql/move_sql_emitter.py:147-173 | the switch-and-move loop, carried in `last_container`, yields the specified body |
| MoveSql.SortedByFields | asm_cleanup/sql/move_sql_emitter.py:77-85 | records are ordered by disk group, then database, then GUID, then source path, the first, second and last without case, missing names and GUIDs counting as empty; what these fields do not tell apart stays in input order |
| MoveSql.ScriptRunsInFieldOrder | asm_cleanup/sql/move_sql_emitter.py:113-173 | a script run from the root makes one move per record in that field order, each with the record's type and source and the policy's destination and mode; for upper-case GUIDs and no PDB named like the marker, in the container mapped to the GUID up to case, else in a placeholder of its first eight characters, else in CDB$ROOT |
| MoveSql.ScriptFrame | asm_cleanup/sql/move_sql_emitter.py:140-179 | disclaimer, trimmed header and spooling come before the moves in this order, the end of spooling and the trimmed footer after them, each exactly when the policy has text for it |
| MoveSql.BareNamesSpelledOut | asm_cleanup/sql/move_sql_emitter.py:52-55 | a name is left unquoted if and only if it starts with a letter and goes on with letters, digits, `_`, `$` and `#` |
| MoveSql.PlaceholdersShared | asm_cleanup/sql/move_sql_emitter.py:135 | two long GUIDs get one placeholder if and only if their first eight characters agree |
| MoveSql.FindUnmappedExact | asm_cleanup/sql/move_sql_emitter.py:87-98 | the report holds exactly the upper-cased record GUIDs that no map key equals up to case, ascending, each once |
| MoveSql.ScriptFollowsLabels | asm_cleanup/sql/move_sql_emitter.py:147-173 | for all records and policies, running the script from CDB$ROOT performs each record's move in its label's container in sorted order if and only if the start marker is neither the first label nor directly followed by the root |
| MoveSql.LabelIsIntended | asm_cleanup/sql/move_sql_emitter.py:121-135 | the case-sensitive look-up finds the container meant for a GUID if and only if the GUID is upper-case, or unmapped in any case, or mapped to its own placeholder |
| MoveSql.ScriptMeansRecordsExactly | asm_cleanup/sql/move_sql_emitter.py:117-173 | for every policy and all records, the script moves every record in its intended container, in sorted order, if and only if the start marker is neither the first label nor directly followed by the root, and every record is resolvable without folding case |
| MoveSql.EmitterCorrect | asm_cleanup/sql/move_sql_emitter.py:113-173 | a script that passes the strict check (upper-case GUIDs, no PDB named like the marker) performs exactly one move per record, in sorted order, each in the container that the map gives for its GUID, despite elided switches |
| MoveSql.SentinelNameMisroutes | asm_cleanup/sql/move_sql_emitter.py:147-158 | concrete input: a PDB named `__INIT__` has its first move run in the root |
| MoveSql.LowerCaseGuidMisroutes | asm_cleanup/sql/move_sql_emitter.py:96-97 | concrete input: a lower-case GUID passes the strict check but is routed to a placeholder |
| MoveSql.SwitchesNeeded | asm_cleanup/sql/move_sql_emitter.py:147-158 | any script needs at least one switch per change of container between the moves it performs |
| MoveSql.SwitchesExactAndMinimal | asm_cleanup/sql/move_sql_emitter.py:147-158 | the number of switches is the number of label changes counted from the root if and only if the start marker is neither the first label nor directly followed by the root; under that condition no script performing the same moves has fewer |
| MoveSql.SortedTriplesContiguous | asm_cleanup/sql/move_sql_emitter.py:77-85 | after sorting, records with equal disk group, database and GUID (up to the key's case folding) stand next to each other |
| MoveSql.SwitchesBoundedByTriples | asm_cleanup/sql/move_sql_emitter.py:77-158 | never more switches than distinct (disk group, database, GUID) triples, for every policy |
| MoveSql.OrderIndependent | asm_cleanup/sql/move_sql_emitter.py:113-119 | permuting records with pairwise distinct sort keys changes neither the script nor the error |
| Elision.TrackExact | asm_cleanup/sql/move_sql_emitter.py:147-158 | for containers of any type: elision leaves every move in its label's container if and only if the labels are marker-safe |
| Elision.TrackStrays | asm_cleanup/sql/move_sql_emitter.py:147-158 | for containers of any type: a move runs outside its label's container only if that label is the root or the start marker |
| Elision.KeptExact | asm_cleanup/sql/move_sql_emitter.py:151-158 | for containers of any type: the switches kept are the label changes counted from the root if and only if the labels are marker-safe; never more than one per change and one at the start |
| Ordering.StableSortUnique | asm_cleanup/sql/move_sql_emitter.py:77-85 | ascending keys and stability leave exactly one result, the modelled sort |
| Ordering.StringOrderExact | asm_cleanup/sql/move_sql_emitter.py:77-85 | strings compare by the first code point in which they differ, and a beginning comes before what continues it |
| Ordering.SortAgrees | asm_cleanup/sql/move_sql_emitter.py:77-85 | two lists sort alike if and only if they agree on the order within every key |
| Ordering.SortCommutesWithFilter | asm_cleanup/sql/move_sql_emitter.py:77-85 | stable sorting commutes with filtering |
| ScriptsByDatabase.EmitByDatabase | asm_cleanup/sql/move_sql_emitter.py:198-208 | grouping in a dictionary and emitting in folded-name order computes the specified scripts, or the first blocked group's error |
| ScriptsByDatabase.SplitRaisesExactlyWhenWholeDoes | asm_cleanup/sql/move_sql_emitter.py:198-208 | the split raises if and only if the whole emission raises, and reports only GUIDs that the whole reports |
| ScriptsByDatabase.ScriptsAreProjections | asm_cleanup/sql/move_sql_emitter.py:198-208 | with no PDB named like the start marker, each script performs the whole script's moves restricted to its database, in the same order and containers; names are distinct and ascending up to case; every record's database has a script |
| ScriptsByDatabase.ScriptsConserveMoves | asm_cleanup/sql/move_sql_emitter.py:198-208 | with no PDB named like the start marker, the scripts taken together perform exactly the moves of the whole script |
| ScriptsByDatabase.MoveOfRecord | asm_cleanup/sql/move_sql_emitter.py:198-208 | whatever the PDBs are called, every executed move has type, source, destination and mode of one of the records |
| Grouping.SortedGroups | asm_cleanup/sql/move_sql_emitter.py:198-207 | the groups partition the records by name, each in input order, and come in the order of the folded names |
| Ansi.ScannerExact | asm_cleanup/transport/text.py:8 | the scanner accepts exactly the prefixes that the pattern describes, with one length per position |
| Ansi.ClassesByCodePoint | asm_cleanup/transport/text.py:8 | the character classes of the pattern, by code point |
| Ansi.StripFixedPoint | asm_cleanup/transport/text.py:20-22 | the text is returned unchanged if and only if no escape sequence starts anywhere; stripping only deletes |
| Ansi.StripIsSubstitute | asm_cleanup/transport/text.py:20-22 | the guard on ESC changes no result |
| Ansi.NotIdempotent | asm_cleanup/transport/text.py:22 | concrete input on which a second pass finds a sequence that the first one created |
| Ansi.IdempotentExactly | asm_cleanup/transport/text.py:8-22 | a second pass changes nothing if and only if no unmatched ESC of the input is followed by text that, with complete sequences skipped, completes a sequence |
| Ansi.StripLeavesNoEscExactly | asm_cleanup/transport/text.py:8-22 | stripping leaves no ESC if and only if every ESC of the input starts a complete sequence |
| Ansi.CompleteSequencesStripOnce | asm_cleanup/transport/text.py:8-22 | text in which every ESC starts a complete sequence needs no second pass |
| Ansi.StripIsLinewise | asm_cleanup/transport/text.py:8-22 | stripping newline-joined lines is stripping each line and joining again |
| Transcript.InventoryToTranscript | asm_cleanup/walk/transcript.py:25-30 | the printer's loop yields the specified text |
| Transcript.TranscriptToInventory | asm_cleanup/walk/transcript.py:50-97 | the parser's loop over its path, buffer and directories computes the specified parse, header errors included |
| Transcript.PrintedFormat | asm_cleanup/walk/transcript.py:25-30 | the format on one directory with one row: header, directory mark, sixty dashes, row, and a line feed after each |
| Transcript.AcceptedExactly | asm_cleanup/walk/transcript.py:68-78 | a text is accepted if and only if every header line in it declares version 1; otherwise the first that does not is complained about, by its text when it declares no number and by its number else |
| Artifacts.DecimalsAreRead | asm_cleanup/walk/transcript.py:70 | every decimal number, with or without a sign, is read as itself |
| Transcript.ReadExactly | asm_cleanup/walk/transcript.py:65-97 | an accepted text yields directories and rows in the order of its lines, from the first directory on; headers and rules stand for nothing |
| Text.SplitAtCrLf | asm_cleanup/walk/transcript.py:65 | a carriage return with a line feed ends one line, not two |
| Text.SplitAtBreak | asm_cleanup/walk/transcript.py:65 | every other line break splits off the line before it |
| Text.CharactersByCodePoint | asm_cleanup/walk/transcript.py:65-67 | which characters count as spaces, line breaks, letters and digits, and how case maps, by code point |
| Transcript.ParseYieldsWellFormed | asm_cleanup/walk/transcript.py:65-88 | whatever text is accepted, the inventory is well formed: trimmed paths, no line separators, no row reading as a mark, a header or a rule |
| Transcript.RoundTripExact | asm_cleanup/walk/transcript.py:16-97 | for every inventory, printing and parsing gives the same directories if and only if it is well formed and no row holds an escape sequence |
| Transcript.RoundTripWhole | asm_cleanup/walk/transcript.py:90-97 | with its own non-empty root handed back, the whole inventory is restored under the same condition |
| Transcript.RoundTripWithoutRoot | asm_cleanup/walk/transcript.py:90-97 | without a root the whole inventory is restored if and only if moreover its root is its first directory, or `unknown` when it has none |
| Transcript.DirRowMisparses | asm_cleanup/walk/transcript.py:79-83 | concrete inventory whose row reads as a directory mark: it comes back as two directories |
| Transcript.PrintAfterParseIdempotent | asm_cleanup/walk/transcript.py:16-97 | for every accepted text, printing what was parsed and parsing it again restores the listings if and only if no row holds an escape sequence; the printed text is then stable, and ESC-free text qualifies |
| Transcript.WriterThenStripper | asm_cleanup/walk/transcript.py:110 | stripping the written file is writing the inventory with stripped paths and twice stripped rows |
| Transcript.LoadAfterWrite | asm_cleanup/walk/transcript.py:100-123 | loading a written transcript gives that cleaned inventory if and only if it is well formed |
| Transcript.CleanedIsOnePass | asm_cleanup/walk/transcript.py:29 | writing and loading strips a listing once in effect if and only if no row creates a sequence while it is stripped, a condition on the rows as they are |
| Transcript.LoadStripsOnceExactly | asm_cleanup/walk/transcript.py:100-123 | loading a written transcript gives the listings with rows and paths stripped once if and only if those are well formed and no row is left with an escape sequence |
| Transcript.LoadRestoresExactly | asm_cleanup/walk/transcript.py:100-123 | for every inventory, loading its written transcript restores the listings themselves if and only if they are well formed and hold no escape sequence, in rows or paths |
| Walker.Subdirectories | asm_cleanup/walk/asm_walker.py:86-96 | the row loop collects, row by row, the names that the rows announce |
| Walker.RowChildExact | asm_cleanup/walk/asm_walker.py:88-96 | a row announces a name if and only if it holds no `=>` and, trimmed, is the space-free name with a slash, alone or behind a space |
| Walker.WalkOne | asm_cleanup/walk/asm_walker.py:60-105 | one call appends to the shared buffer, ticks and list calls exactly the pre-order below its path, up to the first failing listing; without a limit the part reached before that listing has to end |
| Walker.Walk | asm_cleanup/walk/asm_walker.py:40-58 | the inventory is the pre-order of the tree that the port reports, or the path that failed first; a completed walk lists exactly the directories that announced names reach from the trimmed root within max_depth steps, each with the rows the port gives for it; ticks are 1..n paired with the n-th listed path; list calls are the visited paths; without a limit the part reached before the first failing listing has to end |
| Walker.VisitedExactly | asm_cleanup/walk/asm_walker.py:86-105 | a directory is visited if and only if following announced names, each behind a slash, reaches it within the limit |
| Traversal.WalkIsThePreOrder | asm_cleanup/walk/asm_walker.py:76-105 | the visits are exactly the directories at an address of at most max_depth steps, each address once, in pre-order, with the depth and rows of that directory |
| Traversal.SmallerLimitFilters | asm_cleanup/walk/asm_walker.py:83-84 | a smaller max_depth yields the larger walk without its deeper visits |
| Traversal.FiniteTreeIgnoresLimit | asm_cleanup/walk/asm_walker.py:83-84 | on a tree that ends, every limit from its height on gives the same walk |
| Traversal.EndingTreeSettles | asm_cleanup/walk/asm_walker.py:76-105 | a tree that ends everywhere meets what a walk without a limit asks of the part it reaches |
| Traversal.SettledIgnoresLimit | asm_cleanup/walk/asm_walker.py:83-84 | where the part reached before the first failing listing ends, every limit from there on makes the same listings, ticks and calls, whatever lies behind the failure |
| Traversal.WalkBound | asm_cleanup/walk/asm_walker.py:83-105 | with at most b subdirectories per listing at most 1+b+...+b^D list calls are made, whatever the port reports |
| Traversal.WalkPathsDistinct | asm_cleanup/walk/asm_walker.py:98-105 | when every listing names distinct slash-free subdirectories, no path is visited twice |
| PathWalks.WalkPath | asm_cleanup/pipeline/pipeline_orchestrator.py:108-129 | walking a path yields the inventory of the pre-order from its normalized root, or nothing when a listing fails |
| PathWalks.WalkedRootIsNormalized | asm_cleanup/pipeline/pipeline_orchestrator.py:111-126 | the walk starts at the normalized path itself: trimming it again changes nothing |
| Scope.NormalizedPathExact | asm_cleanup/pipeline/pipeline_orchestrator.py:319-321 | a path to process loses its outer space and, if it starts with a plus sign, is put in upper case segment by segment, all but the last; otherwise it is left alone |
| AliasRecords.GuidBeforeMeaning | asm_cleanup/domain/alias_record.py:153-160 | a GUID is found if and only if the segment before the first type segment is 32 hex digits, and it is that segment in upper case |
| AliasRecords.PathGuidIsUpper | asm_cleanup/domain/alias_record.py:143-160 | every GUID read off a path is upper-case and matches the pattern |
| AliasRecords.GuidsSpelledOut | asm_cleanup/domain/alias_record.py:12 | what counts as a GUID segment, by code point |
| AliasRecords.TypeSegmentsSpelledOut | asm_cleanup/domain/alias_record.py:155 | a segment is a type segment if and only if it reads `datafile` or `tempfile` without case |
| AliasRecords.FileSuffixExact | asm_cleanup/domain/alias_record.py:13 | a segment reads as a file if and only if it ends in a dot and `dbf` or `tmp`, in any case |
| AliasRecords.DatabaseNameExact | asm_cleanup/domain/alias_record.py:78-88 | the database of a path is its second non-empty segment, behind one with a plus sign, unless that reads as a file, a type or a GUID |
| AliasRecords.DiskGroupExact | asm_cleanup/domain/alias_record.py:100-108 | a path's disk group is what stands between its plus sign and the first slash, upper-cased and without space at its end; a path without a plus sign has none |
| AliasRecords.MergeHalvesRuns | asm_cleanup/domain/alias_record.py:127 | replacing double slashes halves every run of slashes, rounding up |
| AliasRecords.MergeKeepsOthers | asm_cleanup/domain/alias_record.py:127 | every other character stays as it is |
| AliasRecords.ListingLineExact | asm_cleanup/domain/alias_record.py:121-141 | a row yields an alias if and only if the pattern matches it; the alias has the captured type, the trimmed captured target, the directory and the captured name as source, and the GUID and the database of its source path or, when that has none, of its target path |
| AliasRecords.ListingLineGuidIsUpper | asm_cleanup/domain/alias_record.py:121-141 | every alias record made from a listing row carries an upper-case GUID or none |
| Attribution.WalkedAliasesNameTheirRoot | asm_cleanup/domain/alias_record.py:121-141 | every alias in the inventory that walking the root of a disk group and a database yields, at any depth, limit and for any rows, carries that database and that disk group; the database is a trimmed slash-free segment that reads neither as file, type nor GUID |
| Attribution.NormalizedGroupIsPlain | asm_cleanup/domain/paths.py:19-24 | a normalized disk group is an upper-case slash-free `+NAME`; it is fit for attribution if and only if no space is left at its end |
| Attribution.ScannedAliasMovedByItsDatabase | asm_cleanup/services/scan_service.py:246-297 | when every database name of the scan is a trimmed slash-free segment that reads neither as file, type nor GUID, no normalized disk group ends in a space, and no PDB is named like the start marker: every alias that a scan works with is attributed to one of the scan's disk groups and databases, and is moved, in the container of its GUID, by the script of that database, or of the database that the catalog reports for its file |
| FirstOccurrence.DedupKeepsFirsts | asm_cleanup/walk/asm_inventory.py:39-51 | exactly the first occurrences are kept, keys are distinct, and each dropped element shares its key with an earlier kept one |
| FirstOccurrence.LayeredDedup | asm_cleanup/services/scan_service.py:134-155 | deduplicating each part and then the concatenation is one deduplication of everything |
| FirstOccurrence.DedupCommutesWithFilter | asm_cleanup/pipeline/walk_scope_resolver.py:222-230 | a filter that sees only the key commutes with deduplication |
| Inventories.ExtractListingAliases | asm_cleanup/walk/directory_listing.py:34-40 | the row loop of a listing collects, row by row, the aliases that the rows yield |
| Inventories.ExtractAliases | asm_cleanup/walk/asm_inventory.py:39-51 | the nested loops yield the first-occurrence deduplication of all rows' aliases |
| Inventories.ExtractedExactly | asm_cleanup/walk/asm_inventory.py:39-51 | every extracted alias stems from a row that the pattern matches, with type, paths, GUID, database and disk group as captures and paths say, and every matching row's alias, or one with its key, is among the extracted |
| Inventories.SummarizeListingStats | asm_cleanup/walk/asm_inventory.py:53-69 | the nested loops count the rows that start with a file type and, among them, those with an arrow |
| Inventories.WalkAsmAliases | asm_cleanup/services/scan_service.py:134-160 | failing paths are noted in order and skipped, the others are deduplicated across paths, and all paths are counted as attempted |
| Inventories.LayersAreOneDedup | asm_cleanup/services/scan_service.py:134-155 | the two layers of deduplication are one global first-occurrence deduplication of all aliases of all paths that did not fail |
| Inventories.KeyIsInjective | asm_cleanup/walk/asm_inventory.py:43-46 | for two aliases whose sources hold no bar, whatever their targets hold, keys agree if and only if type and folded paths agree |
| Inventories.KeyIdentifiesExactly | asm_cleanup/walk/asm_inventory.py:43-46 | the key of an alias belongs to no alias of another type or other folded paths if and only if neither its source nor its target holds a bar |
| Inventories.BarsCollide | asm_cleanup/walk/asm_inventory.py:43-46 | concrete pair of different aliases with one key, the second of which is dropped |
| Inventories.WalkedGuidsAreUpper | asm_cleanup/services/scan_service.py:147-155 | every alias that a scan works with carries an upper-case GUID or none |
| Enrichment.OmfNameExact | asm_cleanup/services/alias_enrichment.py:15 | the suffix scan accepts exactly the names that end in a dot, digits, a dot and digits |
| Enrichment.EnrichAlias | asm_cleanup/services/alias_enrichment.py:63-119 | the body of the first loop yields the specified row and record |
| Enrichment.PersistWalked | asm_cleanup/services/alias_enrichment.py:62-119 | the first loop adds one row to the session and one record per walked alias, in order, and matches both of its paths |
| Enrichment.PersistStandalone | asm_cleanup/services/alias_enrichment.py:122-160 | the second loop does the same for every unmatched catalog file that OMF did not name |
| Enrichment.EnrichAndPersist | asm_cleanup/services/alias_enrichment.py:41-167 | the returned records and the rows added to the session are those of both loops, in order |
| Enrichment.CatalogEntryExact | asm_cleanup/services/alias_enrichment.py:73 | an alias is reconciled with the catalog file whose path equals its source up to case and outer space, else with the one whose path equals its target, and with no other |
| Enrichment.WalkedRecordExact | asm_cleanup/services/alias_enrichment.py:63-119 | the record of a walked alias has type, path and database as the catalog reports the file that the alias stands for, DATAFILE exactly when that is reported, else its own type and source and the database of its paths; it keeps target and disk group, and its GUID or else that of its source |
| Enrichment.FileRecordExact | asm_cleanup/services/alias_enrichment.py:125-160 | the record of a standalone file has type, path and database as reported, the destination as target, the disk group that its path starts in or else the destination, and the GUID of its path |
| Enrichment.EnrichedExactly | asm_cleanup/services/alias_enrichment.py:58-160 | record by record over both loops: the first ones are so made of the walked aliases in order, all others of catalog files |
| Enrichment.NormPathIgnores | asm_cleanup/services/alias_enrichment.py:63-64 | paths are compared without outer space and without case |
| Enrichment.OmfPathExact | asm_cleanup/services/alias_enrichment.py:126-128 | a file is left to OMF if and only if its trimmed path ends in a dot, digits, a dot and digits |
| Enrichment.WalkedSourceIsMatched | asm_cleanup/services/alias_enrichment.py:63-82 | the source given to a walked record, the catalog's spelling included, is among the matched paths |
| Enrichment.StandaloneEmittedOnce | asm_cleanup/services/alias_enrichment.py:122-160 | an unmatched file without an OMF name appears exactly once among all records, as its own record |
| Enrichment.CatalogPartition | asm_cleanup/services/alias_enrichment.py:122-160 | a catalog file is emitted exactly once by the second loop if and only if no walked alias mentions it and OMF did not name it |
| Enrichment.EnrichmentConserves | asm_cleanup/services/alias_enrichment.py:58-160 | one record and one row per walked alias and per standalone file, and no second-loop source equals a first-loop source up to case |
| Enrichment.SourcesDistinctExactly | asm_cleanup/services/alias_enrichment.py:58-160 | no two records have the same source up to case if and only if no two walked aliases stand for the same file: the source if the catalog knows it, else the target if the catalog knows that, else the source |
| Enrichment.SharedTargetMovedTwice | asm_cleanup/services/alias_enrichment.py:73-82 | concrete input: two aliases with different sources and one catalog file as target both get that file as source |
| Enrichment.RowsDescribeRecords | asm_cleanup/services/alias_enrichment.py:99-160 | rows and records pair off in order with equal type, source, target, GUID and database, and every database is named |
| Scan.CollectDetails | asm_cleanup/services/scan_service.py:185-223 | the loop over databases fills the catalog and the GUID map as specified |
| Scan.DetailsWellFormed | asm_cleanup/services/scan_service.py:214-223 | catalog keys are the trimmed folded raw paths, GUID keys are upper-case, and the last report of a key decides |
| Scan.CatalogIsLastReport | asm_cleanup/services/scan_service.py:191-223 | under each path the catalog holds container, type, database and spelling of the last report of that path, by database and then by row |
| Scan.BuildEmitMap | asm_cleanup/services/scan_service.py:289-293 | the injection loop computes the specified map |
| Scan.EmitMapExact | asm_cleanup/services/scan_service.py:289-293 | known GUIDs keep their PDB, other GUIDs that a record mentions get their placeholder, and nothing else is added |
| Scan.InjectionMapsEverything | asm_cleanup/services/scan_service.py:289-297 | after injection nothing is unmapped, so that even the strict emitter would accept the records |
| Scan.InjectedLabel | asm_cleanup/services/scan_service.py:289-297 | the container that the emitter selects under the injected map is the discovered PDB, else the placeholder, else the root |
| Agreement.WalkedRowAgreesExactly | asm_cleanup/services/alias_enrichment.py:90-119 | for a walked alias the persisted container is the one that the emitter selects, which is the one the script runs the move in when no PDB is named like the start marker, if and only if the row carries a GUID, or the catalog does not know the file, or the catalog puts it in the root |
| Agreement.StandaloneRowAgreesExactly | asm_cleanup/services/alias_enrichment.py:131-160 | for a standalone file the persisted container is the one that the emitter selects, which is the one the script runs the move in when no PDB is named like the start marker, if and only if the catalog names the container that the GUID in the file's path stands for, or the root when there is none |
| Agreement.ScanRowsAgreeExactly | asm_cleanup/services/scan_service.py:274-297 | over all rows of a scan, both loops: every row names the container that the emitter selects for its record if and only if every walked alias and every standalone file meets its condition on what discovery reports; with no PDB named like the start marker the same condition decides whether the scripts, when run, move every record, in sorted order, in the container that its row names |
| Agreement.RunAsSaidExactly | asm_cleanup/sql/move_sql_emitter.py:147-208 | with no PDB named like the start marker, the per-database scripts execute every record's move in the container that its row names if and only if every row names the emitter's container |
| Agreement.MarkerRowMisleads | asm_cleanup/sql/move_sql_emitter.py:147-158 | concrete input: of a PDB named like the start marker row and label agree, and still the script moves the record in the root |
| Agreement.GuidlessRowDisagrees | asm_cleanup/services/alias_enrichment.py:73-96 | concrete input: an alias without a GUID whose file the catalog puts in a PDB; the row names the PDB, the emitter selects the root |
| Agreement.UnknownGuidRowDisagrees | asm_cleanup/services/alias_enrichment.py:131-149 | concrete input: a file no alias mentions, with a GUID in its path that discovery does not report; the row names the PDB, the emitter selects a placeholder |
| Scan.RunScan | asm_cleanup/services/scan_service.py:162-314 | a scan fails exactly when the host cannot be read, the destination names no disk group, the port cannot list disk groups it is asked for, or every path failed, and then adds no row; otherwise it resolves its scope, adds the enriched rows and returns the scripts of the enriched records; every move these scripts execute has type and source of a record made of an alias or a catalog file, the mode asked for, and as destination a plus sign with the upper-cased disk group that the destination text names |
| Scan.DestinationExact | asm_cleanup/config/move_policy.py:47-55 | a destination is usable if and only if the trimmed text, without an optional plus sign, has something before its first slash, and is then a plus sign with that in upper case |
| Scan.WalkScope | asm_cleanup/services/scan_service.py:127-160 | the aliases are those of the paths that the discovered scope resolves to; a scope without paths gives none and is no failure |
| Scan.ScanMovesEveryRecordOnce | asm_cleanup/services/scan_service.py:263-297 | end to end, with no PDB named like the start marker, the scripts of a scan together perform exactly one move per enriched record, in the discovered container of its GUID, its placeholder or the root |
| Scan.ScanMovesEachFileOnceExactly | asm_cleanup/services/scan_service.py:263-297 | end to end, with no PDB named like the start marker, the scripts of a scan move no file twice, up to case, if and only if no two walked aliases stand for the same file |
| GuidMaps.PdbGuidMapCollector.Collect | asm_cleanup/transport/pdb_guid_map_collector.py:151-176 | the cached collection with its upper-case retry makes the specified step, host attempts included |
| GuidMaps.PdbGuidMapCollector.CollectMany | asm_cleanup/transport/pdb_guid_map_collector.py:190-196 | the loop stops at the first failure and keeps what was cached before |
| GuidMaps.CollectStep | asm_cleanup/transport/pdb_guid_map_collector.py:151-176 | one call keeps the cache coherent and changes no entry, a hit attempts nothing, a failure caches nothing; the spelling as given is attempted first and its upper-case form only when that fails and differs; it fails if and only if the name is blank or both spellings fail |
| GuidMaps.AlwaysCoherent | asm_cleanup/transport/pdb_guid_map_collector.py:151-176 | after any sequence of calls every cached map came from a successful attempt at a spelling of its key, every success is cached, and no key succeeds twice |
| GuidMaps.LaterCallsAgree | asm_cleanup/transport/pdb_guid_map_collector.py:154-156 | once a name was collected, any later call with a spelling that folds to it returns the same map and attempts nothing, whatever came between |
| GuidMaps.ManyMergesLastWins | asm_cleanup/transport/pdb_guid_map_collector.py:190-196 | a successful merge gives each GUID the name that the last database reports for it |
| GuidMaps.ManySucceedsExactly | asm_cleanup/transport/pdb_guid_map_collector.py:190-196 | collecting many succeeds if and only if every name that is neither blank, nor cached, nor a repetition up to case is available in one of its two spellings |
| GuidMaps.MergePdbGuidMaps | asm_cleanup/transport/pdb_guid_map_collector.py:121-124 | the merging loop computes the specified map |
| GuidMaps.MergedExact | asm_cleanup/transport/pdb_guid_map_collector.py:121-124 | merged keys are upper-case, a GUID is known if and only if one of the maps knows it up to case, and the manual entry wins |
| GuidMaps.ResolvedNames | asm_cleanup/pipeline/pipeline_orchestrator.py:243-284 | under the resolved policy a GUID is named by the manual entry, else by the entry fetched for it, else not at all |
| GuidMaps.DatabasesForPdbMap | asm_cleanup/pipeline/pipeline_orchestrator.py:194-219 | the names to ask are those of the scope, then of the aliases, each once up to case, blanks skipped |
| GuidMaps.AskedExactly | asm_cleanup/pipeline/pipeline_orchestrator.py:194-219 | the names asked for begin with those of the scope; each is a non-blank name of the scope or an alias, no two agree up to case, and every such name is asked for in some spelling |
| GuidMaps.ResolveMovePolicyForEmit | asm_cleanup/pipeline/pipeline_orchestrator.py:243-284 | the branches of the policy resolution compute the specified outcome |
| GuidMaps.FetchedWhenNeeded | asm_cleanup/pipeline/pipeline_orchestrator.py:243-284 | the policy stays as it is unless fetching is on, there is a shell, some alias carries a GUID and there is a database to ask; then a successful answer is merged in, and a failed one leaves the policy if it maps every GUID and is an error otherwise |
| GuidMaps.ManualNamesSurvive | asm_cleanup/pipeline/pipeline_orchestrator.py:283-284 | whatever was fetched, a record that the manual map resolves is emitted in the same container, and only the GUID map of the policy changes |
| GuidMaps.FailedFetchIsHarmless | asm_cleanup/pipeline/pipeline_orchestrator.py:269-281 | when the fetch fails, the unchanged policy comes back if and only if it passes the strict check as it is |
| Paths.NormalizePath | asm_cleanup/domain/paths.py:40-48 | the segment loop computes the specified normal form |
| Paths.NormalizeBySegments | asm_cleanup/domain/paths.py:40-48 | segment by segment: all but the last are put in upper case, and a lone one too |
| Paths.DiskGroupTokenExact | asm_cleanup/domain/paths.py:19-24 | a disk group token is spelled with a plus sign and, in upper case, what it has before its first slash |
| Paths.NormalizeKeepsFoldedPath | asm_cleanup/domain/paths.py:40-48 | normalizing changes nothing but case |
| Paths.NormalizeIdempotent | asm_cleanup/domain/paths.py:40-48 | a normalized path is a fixed point |
| Paths.ExpandAsmWalkPaths | asm_cleanup/domain/paths.py:74-84 | the nested loops yield the first representative up to case of each disk group with each database, in order |
| Paths.RootsInOrder | asm_cleanup/domain/paths.py:76-79 | the pairs come disk group by disk group, and within one in the order of the databases |
| Paths.RootsAreFixedPoints | asm_cleanup/domain/paths.py:74-84 | every expanded path is normalized and stems from one of the pairs |
| Scope.WalkScopeResolver.DiscoverDiskGroups | asm_cleanup/pipeline/walk_scope_resolver.py:161-186 | the discovered groups are the accepted rows' normalized tokens, first spelling each; a listing that raises leaves nothing remembered and is asked for again, one that answers is remembered and never asked for again |
| Scope.TokenExact | asm_cleanup/pipeline/walk_scope_resolver.py:171-178 | a listing row names a disk group if and only if, trimmed, it is an optional plus sign, a name of letters, digits, `_`, `$`, `#` and `-`, and an optional slash |
| Scope.DatabasesExactly | asm_cleanup/pipeline/walk_scope_resolver.py:48-68 | the databases are those listed, in order, that no exclusion equals up to case and that the filter, if any, names; a filter that names an unlisted one is an error with exactly those names |
| Scope.WalkScopeResolver.ResolvePaths | asm_cleanup/pipeline/walk_scope_resolver.py:200-236 | the branches from explicit path to exclusion compute the specified paths or error; a given path or configured disk groups make no call on the port |
| Scope.ExclusionCommutesWithDedup | asm_cleanup/pipeline/walk_scope_resolver.py:222-230 | excluding before or after choosing representatives is the same |
| Scope.ExcludedExactly | asm_cleanup/pipeline/walk_scope_resolver.py:222-230 | a path is excluded if and only if some pattern matches it, and neither its case nor the pattern's matters |
| Scope.ResolvedExactly | asm_cleanup/pipeline/walk_scope_resolver.py:214-236 | without a given path the result is exactly the first representatives of the surviving disk-group and database pairs, or the error that nothing is left; results are normalized, distinct up to case and not excluded |
| Scope.GivenPathWins | asm_cleanup/pipeline/walk_scope_resolver.py:200-212 | a given path, else the default path, is subject to exclusion only, as it was given; what is walked is a fixed point that differs from it in case only |
| Artifacts.SlugIsSafe | asm_cleanup/pipeline/walk_results.py:56-59 | every path has a non-empty slug of safe characters without doubled or outer underscores |
| Artifacts.SlugIsFixedPoint | asm_cleanup/pipeline/walk_results.py:56-59 | such a slug is its own slug |
| Artifacts.SlugOfSegments | asm_cleanup/pipeline/walk_results.py:56-59 | a path whose segments are slugs has them, joined by underscores, as its slug |
| Artifacts.Pad2Value | asm_cleanup/pipeline/walk_results.py:102 | the zero-padded sequence number determines the number, however large |
| Artifacts.NamesNeverCollide | asm_cleanup/pipeline/walk_results.py:99-113 | for one date stamp, two numbered names are equal if and only if kind, sequence number and slug are equal |
| Artifacts.NamesSpelledOut | asm_cleanup/pipeline/walk_results.py:99-113 | the three names of a path, with a number and without |
| ConcurrentRun.ReachableInv | asm_cleanup/pipeline/pipeline_orchestrator.py:507-515 | in every state that any schedule reaches, each file holds what its worker has written so far, each slot is empty or its own worker's result, and only a failing worker's exception is raised |
| ConcurrentRun.RunIsConfluent | asm_cleanup/pipeline/pipeline_orchestrator.py:507-517 | every schedule that runs to the end leaves the files of the sequential run, and the outcomes in path order unless a worker failed |
| ConcurrentRun.NeverStuck | asm_cleanup/pipeline/pipeline_orchestrator.py:508-515 | every reachable state that is not final has a next event |
| ConcurrentRun.EveryScheduleEnds | asm_cleanup/pipeline/pipeline_orchestrator.py:508-515 | each event uses up exactly one unit of a fixed amount of work |
| ConcurrentRun.SlotsFilledOnce | asm_cleanup/pipeline/pipeline_orchestrator.py:513-515 | each slot is filled by at most one collection, a collected worker's by exactly one |
| ConcurrentRun.FillSlots | asm_cleanup/pipeline/pipeline_orchestrator.py:492-515 | for every order in which the workers complete, the array ends up with the results in path order |
| Orchestrator.FixScriptMovesAliases | asm_cleanup/pipeline/pipeline_orchestrator.py:342-361 | running any fix script that processing a path writes moves each alias of the path's inventory once, in sorted order, in the container of its GUID, if and only if the labels are marker-safe, for which it suffices that no PDB is named like the marker; each GUID's container is the manual entry, else the fetched one, and there always is one |
| Orchestrator.FixScriptMoveByMove | asm_cleanup/pipeline/pipeline_orchestrator.py:342-361 | a fix script move by move, from the listing rows on: one move per alias that stems from a matching row, by ascending disk group, database, GUID and source path; with no PDB named like the marker each in the container that the manual map, else the fetched one, gives for its GUID, or the root, to the policy's destination |
| Orchestrator.ResultExact | asm_cleanup/pipeline/pipeline_orchestrator.py:346-376 | the result names the path, counts file rows, alias rows and unique aliases, gives the unmapped GUIDs or the failed fetch as the reason for a blocked script, and is the last file written |
| Orchestrator.NothingToReuse | asm_cleanup/pipeline/pipeline_orchestrator.py:339-376 | without a walk and without an earlier transcript the result counts nothing and no script is written |
| Orchestrator.ReuseSeesTheWalk | asm_cleanup/pipeline/pipeline_orchestrator.py:334-338 | the transcript that a walking run leaves gives a run without the walk the same directories if and only if they are well formed and hold no escape sequence |
| Orchestrator.ReuseRepeatsTheRun | asm_cleanup/pipeline/pipeline_orchestrator.py:330-376 | for such directories the run without the walk, on the files that the walking run left, writes the same script and summary, returns the same result or raises alike, and changes no file |
| Orchestrator.ProcessNamed | asm_cleanup/pipeline/pipeline_orchestrator.py:330-376 | the writes to the shared directory and the result are those of the path's plan, which looks at its own earlier transcript only |
| Orchestrator.ProcessPath | asm_cleanup/pipeline/pipeline_orchestrator.py:319-376 | the same with the default artifact names |
| Orchestrator.FixScriptsAreStrict | asm_cleanup/pipeline/pipeline_orchestrator.py:352-374 | a fix script is among the writes if and only if fixing was asked for, there are aliases, and the resolved policy passes the strict check, and it is that policy's script; the result says so and never reports both a written and a blocked script |
| Orchestrator.PoolIsSeparate | asm_cleanup/pipeline/pipeline_orchestrator.py:494-505 | because numbered names never collide, the workers read and write disjoint files |
| Orchestrator.ParallelRunEqualsSequential | asm_cleanup/pipeline/pipeline_orchestrator.py:491-517 | for every interleaving and completion order the files are those of processing the paths one after the other, and the result list is the per-path results in path order; it raises if and only if some path fails |
| Orchestrator.WorkerJobIsItsPath | asm_cleanup/pipeline/pipeline_orchestrator.py:494-505 | what a worker does after the earlier paths were processed is what it does on the initial files: the processing of its own path |

## Left out

- Case mapping, digits and word characters: `upper`, `casefold`, `int` and word boundaries are modelled for ASCII letters and digits; other characters keep their case.
- Regular expressions of listing rows: which rows are alias rows, and the name and target they capture, are a parameter; everything done with the captures is modelled.
- Glob matching (`fnmatch`) is a parameter; it only ever sees folded strings.
- Walker.Walk: without a depth limit the part of the tree that is reached before the first failing listing must end (a ghost height says where); otherwise the program does not return.
- Walker.Walk: a failing listing ends the walk with the path that failed; the exception's text is not modelled.
- MoveSql.Emit: comments, keyword case, header, footer and spool lines are inert statements that are assumed not to change the container, and source paths are carried as they are, without SQL quoting.
- MoveSql.ClauseRoundTrip: the session reads a bare identifier as written; Oracle's own upper-casing of bare identifiers is not modelled.
- MoveSql.Placeholder: placeholders use eight characters of a GUID, so that different GUIDs can share one (`PlaceholdersShared`); no result relies on their being different.
- GuidMaps.PdbGuidMapCollector.Collect: running srvctl and sqlplus and parsing their output is a deterministic function of the database's spelling.
- Orchestrator.ProcessPath: explicit output names and loading from a given transcript are left out; the dispatch of a run to a single path adds no state. The reason for a blocked script is carried as data, not as a message; the short display path is left out.
- Orchestrator.ParallelRunEqualsSequential: the port answers each path the same whenever it is asked; per-thread connections are not modelled, and single file writes are atomic.
- Transcript.LoadAfterWrite: the file's bytes are the text; encoding and newline translation are left out.
- Scan.RunScan: what connecting and discovery yield, or that they raise, is a parameter, and so is the answer to each listing of disk groups; the commands behind them, progress messages, and the storing of status and of the scripts as JSON are left out. A listing of disk groups is taken to raise no `ValueError`, which the program would treat as a scope without paths.
- SSH and local command execution, the web interface, authentication, the database layer, the command line, reports and logging: thin layers over libraries that are not part of this model.
