# Gem RBI reconciliation, modelled in Dafny

This project models the engine behind tapioca's `gem` command. The command keeps a directory of
generated gem RBI files (`<name>@<version>.rbi`) in line with the gems of an application's bundle.
The model covers three runs:

- **Sync** (`tapioca gem`) first deletes the file of every gem no longer wanted. It then regenerates every
  wanted gem not on disk at its wanted version. A gem whose version changed has its old file moved to
  the new name and overwritten (`force`). A new gem's file is created (`create`). A phase with nothing
  to do says so.
- **Generate** (`tapioca gem NAME...`, `tapioca gem --all`) compiles the gems asked for, less the
  excluded ones, and writes one file for each. It removes nothing.
- **Verify** (`tapioca gem --verify`) makes the same comparison as sync but changes nothing. It prints
  a report and returns exit status 0 when the directory is up to date and 1 otherwise. The report lists
  the added, changed and removed files in that order, each list sorted by gem name.

The RBI compiler is an oracle. For each gem, the bundle records the version the gem resolves to and
what compiling it yields: a body, empty output, a missing spec, or a fatal load error.

Modules, in dependency order:

- `Wrappers`: `Option` and `Result`.
- `Ordering` (ordering.dfy): Ruby's string order and the sorted listing of a set of names.
- `Identity` (identity.dfy): file names, and parsing them back into a name and a version.
- `Builder` (builder.dfy): the target set, the compiler oracle, placeholders for empty output, and file texts.
- `Reconciler` (reconcile.dfy): the directory as a map from file name to text; the comparison plan; and
  `Synced`, the directory a sync leaves, defined phase by phase and specified file by file.
- `Log` (log.dfy): the events a run reports and the console lines each one prints.
- `Phases` (phases.dfy): the events of each sync phase and of a generation run.
- `Reporter` (report.dfy): the verify report.
- `Engine` (engine.dfy): the class `OutputDir`. It holds the directory and the console log, and its
  methods carry out the phases with loops.
- `Properties` (properties.dfy): end-to-end properties and the scenarios of the command's test suite.

The sync and generate methods are proved against the specification functions `Synced`, `Regenerate`,
`SyncLog` and `GenerateEvents`. The lemmas in `Reconciler`, `Phases` and `Properties` then prove what
those functions promise.

## Model

| member | source | states |
|---|---|---|
| Identity.Parse | spec/tapioca/cli/gem_spec.rb:99 | a file name that parses gives a name without `@`, and the file name is exactly `<name>@<version>.rbi` |
| Identity.ParseFilename | spec/tapioca/cli/gem_spec.rb:99 | parsing the file name of gem `name` at `version` gives back `(name, version)` when the name holds no `@` |
| Identity.ParseIsInverseOfFilename | spec/tapioca/cli/gem_spec.rb:99 | a file parses as `(name, version)` if and only if the name holds no `@` and the file is that gem's file name |
| Identity.FilenameInjective | spec/tapioca/cli/gem_spec.rb:99 | two gems' file names coincide if and only if their names and versions both do |
| Identity.GitRevisionVersion | spec/tapioca/cli/gem_spec.rb:243-252 | a version with a git-revision suffix (`2.4.1-e07a…`) survives the file name round trip |
| Ordering.Ascending | spec/tapioca/cli/gem_spec.rb:484-486 | lists the names of a set strictly ascending in Ruby's string order, each once, and no others |
| Ordering.AscendingIsTheSortedListing | spec/tapioca/cli/gem_spec.rb:484-486 | any strictly sorted listing of exactly the names of a set is the ascending listing, so listing order is deterministic |
| Builder.Targets | spec/tapioca/cli/gem_spec.rb:254-277 | a gem is processed if and only if the bundle has it, it is asked for (by name, or by asking for all gems), and it is not excluded |
| Builder.Build | spec/tapioca/cli/gem_spec.rb:233-241 | fails with the first fatal gem's message if and only if some gem is fatal; otherwise it gives an artifact for exactly the gems whose spec is installed, at their bundle versions, with the compiled body or the placeholder for empty output, and lists the missing-spec gems with their versions |
| Builder.BuiltVersionsAreExpected | spec/tapioca/cli/gem_spec.rb:454-470 | a build over every target yields exactly the expected versions, so sync and verify compare the directory with the same set |
| Reconciler.Existing | spec/tapioca/cli/gem_spec.rb:381-387 | every gem RBI on disk, read back as a name and a version, is a gem on disk; every gem on disk has its file in the directory |
| Reconciler.Reconcile | spec/tapioca/cli/gem_spec.rb:495-527 | added, changed and removed names, each strictly sorted: added are expected but not on disk, changed are both with different versions, removed are on disk but not expected; the plan is empty if and only if the directory matches the expected versions |
| Reconciler.RegenerateAt | spec/tapioca/cli/gem_spec.rb:426-451 | after the generation phase, the old files of the regenerated gems are gone, their new files are present, and every file not written keeps its text |
| Reconciler.RegenerateWrites | spec/tapioca/cli/gem_spec.rb:433-436 | after the generation phase over distinct gems, each gem's new file holds its freshly built text |
| Reconciler.PruneRemovesUnwanted | spec/tapioca/cli/gem_spec.rb:354-401 | the removal phase deletes exactly the gem RBIs of gems no longer wanted, and nothing else |
| Reconciler.SyncedContents | spec/tapioca/cli/gem_spec.rb:295-452 | after a sync, the directory holds the files that are not gem RBIs, untouched, and as gem RBIs exactly the wanted files; a file already on disk at its wanted version keeps its text |
| Reconciler.SyncedWrites | spec/tapioca/cli/gem_spec.rb:403-424 | after a sync, every wanted file that was not on disk holds its built text |
| Reconciler.SyncedLayout | spec/tapioca/cli/gem_spec.rb:445-450 | after a sync, the directory has exactly one gem RBI per wanted gem, at the wanted version |
| Reconciler.SyncOfLayoutIsIdentity | spec/tapioca/cli/gem_spec.rb:296-319 | syncing a directory already holding the wanted versions leaves it exactly as it is |
| Reconciler.SyncIdempotent | spec/tapioca/cli/gem_spec.rb:296-319 | a second sync with the same wanted files leaves the directory of the first unchanged |
| Log.Lines | spec/tapioca/cli/gem_spec.rb:159-171 | every event prints one console line, except a load failure, which prints seven |
| Log.RenderAppend | spec/tapioca/cli/gem_spec.rb:305-314 | printing two runs of events one after the other prints the lines of the first, then those of the second |
| Phases.RemovalEventsAre | spec/tapioca/cli/gem_spec.rb:359-361 | the removal phase reports one deletion per removed gem, of that gem's file on disk, and nothing else |
| Phases.GenerationEventsAre | spec/tapioca/cli/gem_spec.rb:426-436 | the generation phase reports exactly the move, compile and write events of the regenerated gems |
| Phases.GenerationEventsEmpty | spec/tapioca/cli/gem_spec.rb:391-395 | the generation phase reports nothing if and only if it regenerates no gem |
| Phases.NoRemovalInGeneration | spec/tapioca/cli/gem_spec.rb:437 | the generation phase never reports a deletion: a changed gem is moved, not deleted and recreated |
| Phases.SyncReportsRemovals | spec/tapioca/cli/gem_spec.rb:354-401 | a sync reports `-- Removing:` for a path if and only if it is the file on disk of a gem no longer wanted |
| Phases.SyncReportsGem | spec/tapioca/cli/gem_spec.rb:403-451 | a move, compile or write in a sync's report comes from regenerating a wanted gem not on disk at its wanted version, and every such gem's events are reported |
| Phases.SyncReportsMoves | spec/tapioca/cli/gem_spec.rb:426-451 | a sync reports `-> Moving: from to` if and only if a gem's version changed, from its file on disk to the file of its new version |
| Phases.SyncReportsWrites | spec/tapioca/cli/gem_spec.rb:403-436 | a sync reports a write if and only if it regenerates that gem: `create` for a new gem, `force` for a moved one, at the new file's path |
| Phases.SyncReportsCompiles | spec/tapioca/cli/gem_spec.rb:321-327 | a sync compiles a gem if and only if it is regenerated, and flags "(empty output)" exactly for the gems that exported nothing |
| Phases.QuietSync | spec/tapioca/cli/gem_spec.rb:296-319 | syncing a directory already at the expected versions reports only the two headings, each followed by "Nothing to do." |
| Phases.GenerateEventsAre | spec/tapioca/cli/gem_spec.rb:184-231 | a generation run reports exactly the announce, compile and write events of each gem it is given |
| Phases.GenerateReportsProcessing | spec/tapioca/cli/gem_spec.rb:184-204 | a generation run prints `Processing '<name>' gem:` if and only if that gem is one it writes |
| Phases.GenerateReportsCompiles | spec/tapioca/cli/gem_spec.rb:206-222 | a generation run compiles a gem if and only if it writes it, flagging empty output exactly for the gems that exported nothing |
| Phases.GenerateReportsWrites | spec/tapioca/cli/gem_spec.rb:93-100 | a generation run reports a write if and only if it is the file of a gem it is given: `create` when the directory lacks the file, `force` when it holds it |
| Phases.QuietResync | spec/tapioca/cli/gem_spec.rb:296-319 | a sync right after a sync reports only the two headings, each followed by "Nothing to do." |
| Reporter.Bullets | spec/tapioca/cli/gem_spec.rb:484-486 | one `- <outdir>/<name>@<version>.rbi` line per listed gem, in the listed order |
| Reporter.BulletInjective | spec/tapioca/cli/gem_spec.rb:485-486 | two report lines are equal if and only if they list the same gem at the same version |
| Reporter.BulletIn | spec/tapioca/cli/gem_spec.rb:514-519 | a gem's line is in a subsection if and only if the gem is listed there at that version |
| Reporter.VerifyReport | spec/tapioca/cli/gem_spec.rb:459-527 | exit status 0 if and only if the directory matches the expected versions, printing exactly "Checking…" and "Nothing to do, all RBIs are up-to-date."; otherwise exit status 1 with the preamble and the reason block |
| Reporter.ReasonsListDrift | spec/tapioca/cli/gem_spec.rb:495-527 | the reason block lists a gem's file if and only if that gem drifted: added or changed at its expected version, or removed at its version on disk |
| Engine.OutputDir.PerformRemovals | spec/tapioca/cli/gem_spec.rb:354-401 | deletes the files of the removed gems in order, and logs the removal phase with one deletion per gem |
| Engine.OutputDir.RegenerateGem | spec/tapioca/cli/gem_spec.rb:426-436 | moves a changed gem's old file to its new name, writes the built text there, and logs its move, compile and write |
| Engine.OutputDir.PerformAdditions | spec/tapioca/cli/gem_spec.rb:403-451 | carries out the generation phase: the directory becomes `Regenerate` of the old one and the log gains the phase |
| Engine.OutputDir.RegenerateGems | spec/tapioca/cli/gem_spec.rb:403-451 | regenerates the stale gems one by one in name order, each move reading the old file still on disk |
| Engine.OutputDir.WriteGems | spec/tapioca/cli/gem_spec.rb:93-107 | writes each built gem's file in name order, `create` when absent and `force` when present, leaving files of other versions in place |
| Engine.OutputDir.Apply | spec/tapioca/cli/gem_spec.rb:295-452 | after a successful build, the directory becomes `Synced` of the old one and the log gains the missing-spec line and the two phases |
| Engine.OutputDir.Sync | spec/tapioca/cli/gem_spec.rb:295-452 | builds every non-excluded gem; on success the directory becomes `Synced` and the sync log is printed; on a fatal load error the error is reported |
| Engine.OutputDir.SyncWith | spec/tapioca/cli/gem_spec.rb:159-171 | a failed build reports the load error with the postrequire advice; a successful one is applied |
| Engine.OutputDir.Emit | spec/tapioca/cli/gem_spec.rb:184-231 | writes the file of every artifact in name order, after the line listing the gems skipped for a missing spec |
| Engine.OutputDir.Generate | spec/tapioca/cli/gem_spec.rb:93-107 | builds the gems asked for, less the excluded ones, and writes their files without removing any, or reports the load error |
| Engine.OutputDir.Verify | spec/tapioca/cli/gem_spec.rb:454-528 | reads the directory only; exit status 0 if and only if the gems on disk are the expected versions, with the report of `VerifyReport` |
| Properties.ExpectedOfBuild | spec/tapioca/cli/gem_spec.rb:454-470 | the versions a sync writes are the versions verify expects |
| Properties.SyncMatchesBundle | spec/tapioca/cli/gem_spec.rb:296-319 | after a sync, the gems on disk are exactly the expected versions of the bundle |
| Properties.VerifyAfterSync | spec/tapioca/cli/gem_spec.rb:455-470 | verify right after a sync reports "Nothing to do, all RBIs are up-to-date." with exit status 0 |
| Properties.EmptyOutputPlaceholder | spec/tapioca/cli/gem_spec.rb:321-340 | a gem with empty compile output gets the header followed by the "THIS IS AN EMPTY RBI FILE." body, and is flagged as empty output |
| Properties.MissingSpecSkipped | spec/tapioca/cli/gem_spec.rb:233-241 | a gem with a missing spec gets no file, is listed with its version among the missing specs, and is never compiled |
| Properties.GenerateRespectsExclude | spec/tapioca/cli/gem_spec.rb:254-277 | an excluded gem gets no artifact; a generation run neither announces nor compiles it; and each of its files is in the directory after the run exactly when it was before, with the same text |
| Properties.GenerateOneGem | spec/tapioca/cli/gem_spec.rb:93-107 | `gem NAME` for a gem with a compiled body builds that gem alone; its log is exactly announce, compile, then `create` or `force` at its path; the directory gains that one file, holding the header and the body, and nothing else changes |
| Properties.GenerateFoo | spec/tapioca/cli/gem_spec.rb:93-107 | `gem foo` on a directory without `foo@0.0.1.rbi` logs exactly `Processing 'foo' gem:`, the compile line and `create <outdir>/foo@0.0.1.rbi`, and adds only that file, holding the header and foo's body |
| Properties.SyncedGemFile | spec/tapioca/cli/gem_spec.rb:445-450 | after a sync, the file of a gem at a version is present if and only if that gem is wanted at that version |
| Properties.SyncDropsExcluded | spec/tapioca/cli/gem_spec.rb:376-378 | after a sync with exclusions, no file of an excluded gem remains |
| Properties.AddedGem | spec/tapioca/cli/gem_spec.rb:410-411 | a gem not on disk is compiled and then created at its new path |
| Properties.MovedGem | spec/tapioca/cli/gem_spec.rb:433-436 | a gem on disk at another version is moved from its old path to its new one, compiled, then force-written |
| Properties.GenerationOnly | spec/tapioca/cli/gem_spec.rb:415-419 | when nothing is to be removed and something is to be generated, the removal phase reads "Nothing to do." |
| Properties.RemovalOnly | spec/tapioca/cli/gem_spec.rb:391-395 | when something is to be removed and nothing is to be generated, the generation phase reads "Nothing to do." |
| Properties.VerifyReportsExcluded | spec/tapioca/cli/gem_spec.rb:472-493 | verify with `foo` and `bar` excluded reports exactly "File(s) removed:" with `bar@0.3.0.rbi` before `foo@0.0.1.rbi`, exit status 1 |
| Properties.ExcludedPlan | spec/tapioca/cli/gem_spec.rb:472-487 | excluding `foo` and `bar` makes them the only removed gems, listed `bar` then `foo` |
| Properties.DriftPlan | spec/tapioca/cli/gem_spec.rb:496-520 | with `foo` deleted, `bar` moved back to 0.2.0 and `outdated` added, `foo` is added, `bar` changed and `outdated` removed |
| Properties.VerifyReportsDrift | spec/tapioca/cli/gem_spec.rb:495-527 | that directory's report is exactly: added `foo@0.0.1.rbi`, changed `bar@0.3.0.rbi` (its new name), removed `outdated@5.0.0.rbi`, exit status 1 |
| Properties.SyncRemovesExcluded | spec/tapioca/cli/gem_spec.rb:354-379 | the sync log for the exclusion of `foo` and `bar` is: removing `bar@0.3.0.rbi` and `foo@0.0.1.rbi`, and the generation phase reads "Nothing to do." |
| Properties.SyncRemovesOutdated | spec/tapioca/cli/gem_spec.rb:381-401 | the sync log for a stray `outdated@5.0.0.rbi` is its removal, and the generation phase reads "Nothing to do." |
| Properties.SyncAddsMissing | spec/tapioca/cli/gem_spec.rb:403-424 | with only `foo@0.0.1.rbi` on disk, the removal phase reads "Nothing to do." and `bar@0.3.0.rbi` and `baz@0.0.2.rbi` are compiled and created |
| Properties.SyncMovesOutdated | spec/tapioca/cli/gem_spec.rb:426-451 | with `bar` and `baz` on disk at 0.0.1, each is moved to its new version, compiled and force-written; nothing is removed |

## Left out

- The RBI compiler (runtime introspection of a loaded gem) is an oracle: the bundle gives each gem's version and compile outcome. The RBI bodies themselves are opaque text.
- Flag validation (`--all` with names, `--all` with `--verify`) is command-line parsing outside the engine. The test described as "--verify supplied with arguments" actually runs `gem --all foo`.
- `--no-file-header` is not modelled: every file starts with the fixed header banner.
- Postrequire handling is reduced to the `Fatal` outcome and its error message. The directory is left untouched on a fatal load error; this is a model choice, since the tests only check the message.
- The default output directory (`sorbet/rbi/gems`), default-gem discovery and the tapioca gem's own RBI are environment concerns. The output directory is a parameter.
- The "Requiring all gems to prepare for compiling... Done" line of a successful run is not modelled.
- Process exit status plumbing is left out: `Report.exit` stands for the exit status of verify, and `ok` for the success of sync and generate.
- A gem is classified by name and version only. A file on disk at the wanted version is kept as it is, whatever its text, and a same-version file is never rewritten. The tests leave such a file untouched (gem_spec.rb:404-405, 421).
- The order of sync log lines (missing-spec line, removal phase, then generation phase, each in name order) is fixed by the model. The tests check only that lines are included. The `Phases.SyncReports*` lemmas state the order-independent facts.
- Gems asked for by name that the bundle does not have are ignored (`Builder.Targets`); the message the command prints for them is not modelled.
- Reconciler.Existing: a directory holding two files of one gem is treated as a caller error. `Existing`, `Sync`, `Apply` and `Verify` require `Unambiguous`, at most one gem RBI per gem name.
- Engine.OutputDir.WriteGems: in a generation run, `force` for a file already in the directory is a model choice. No test runs `gem NAME` or `gem --all` over an existing file; the tests show only `create` (gem_spec.rb:99).
- Engine.OutputDir.Emit: printing the missing-spec line in a generation run is a model choice. The test that shows the line (gem_spec.rb:233-241) runs a plain `gem`, which is a sync.
- Engine.OutputDir.Generate: writes every built gem and removes nothing, so after `gem NAME` an older version's file of the same gem may remain beside the new one. The tests never show this case.
- Properties.SyncRemovesExcluded, Properties.SyncRemovesOutdated, Properties.SyncAddsMissing, Properties.SyncMovesOutdated, Properties.VerifyReportsExcluded and Properties.VerifyReportsDrift: stated for the test scenarios' gems, with the rest of the bundle left as an arbitrary map `others`. File paths are written as `Path(outdir, Filename(name, version))` instead of literal strings.
