/** What the `gem` command promises across runs, and on the directories its
    test suite sets up: a sync converges on the bundle, verify agrees with
    it, and each scenario reports exactly the expected lines. */
module Properties {
  import opened Wrappers
  import opened Ordering
  import opened Identity
  import opened Builder
  import opened Reconciler
  import opened Log
  import opened Phases
  import opened Reporter

  /** The versions a build writes are the versions verify expects. */
  lemma ExpectedOfBuild(bundle: Bundle, exclude: set<Name>)
    requires Build(bundle, Ascending(Targets(bundle, All, exclude))).Success?
    ensures Expected(Files(Build(bundle, Ascending(Targets(bundle, All, exclude))).value.artifacts))
         == ExpectedVersions(bundle, exclude)
  {
    var names := Ascending(Targets(bundle, All, exclude));
    var arts := Build(bundle, names).value.artifacts;
    BuiltVersionsAreExpected(bundle, names, exclude);
    assert Expected(Files(arts)) == Versions(arts);
  }

  /** After a successful sync the directory holds, as gem RBIs, exactly one
      file per gem of the bundle that is neither excluded nor missing its
      spec, at the bundle's version. */
  lemma SyncMatchesBundle(dir: Dir, bundle: Bundle, exclude: set<Name>)
    requires ValidBundle(bundle) && Unambiguous(dir)
    requires Build(bundle, Ascending(Targets(bundle, All, exclude))).Success?
    ensures var files := Files(Build(bundle, Ascending(Targets(bundle, All, exclude))).value.artifacts);
      Unambiguous(Synced(dir, files)) && Existing(Synced(dir, files)) == ExpectedVersions(bundle, exclude)
  {
    var names := Ascending(Targets(bundle, All, exclude));
    var files := Files(Build(bundle, names).value.artifacts);
    assert ValidFiles(files);
    SyncedLayout(dir, files);
    ExpectedOfBuild(bundle, exclude);
  }

  /** Verify run right after a successful sync finds nothing to do. */
  lemma VerifyAfterSync(outdir: string, dir: Dir, bundle: Bundle, exclude: set<Name>)
    requires ValidBundle(bundle) && Unambiguous(dir)
    requires Build(bundle, Ascending(Targets(bundle, All, exclude))).Success?
    ensures var files := Files(Build(bundle, Ascending(Targets(bundle, All, exclude))).value.artifacts);
      && Unambiguous(Synced(dir, files))
      && VerifyReport(outdir, Existing(Synced(dir, files)), ExpectedVersions(bundle, exclude))
         == Report([Checking, "", AllUpToDate], 0)
  {
    SyncMatchesBundle(dir, bundle, exclude);
  }

  /** A gem whose compiler output is empty is written with the banner and
      the fixed placeholder body, and reported as empty output. */
  lemma EmptyOutputPlaceholder(bundle: Bundle, names: seq<Name>, n: Name)
    requires forall k :: 0 <= k < |names| ==> names[k] in bundle
    requires Build(bundle, names).Success?
    requires n in names && bundle[n].outcome == Empty
    ensures var files := Files(Build(bundle, names).value.artifacts);
      && n in files
      && files[n].text == Header(n) + EmptyBody
      && files[n].emptyOutput
  {
  }

  /** A gem whose spec is missing gets no file and is never compiled; it is
      listed, with its version, among the gems with missing specs. */
  lemma MissingSpecSkipped(outdir: string, existing: map<Name, Version>, bundle: Bundle,
                           names: seq<Name>, n: Name, emptyOutput: bool)
    requires forall k :: 0 <= k < |names| ==> names[k] in bundle
    requires Build(bundle, names).Success?
    requires n in names && bundle[n].outcome == MissingSpec
    ensures var built := Build(bundle, names).value;
      && n !in Files(built.artifacts)
      && (n, bundle[n].version) in built.missing
      && Compiling(n, emptyOutput) !in SyncEvents(outdir, existing, Files(built.artifacts), built.missing)
  {
    var built := Build(bundle, names).value;
    SyncReportsCompiles(outdir, existing, Files(built.artifacts), built.missing, n, emptyOutput);
  }

  /** A generation run never announces, compiles or writes an excluded gem:
      its log has no event of it, and every file of it in the directory is
      there before the run exactly when after, with the same text. */
  lemma GenerateRespectsExclude(outdir: string, dir: Dir, bundle: Bundle, scope: Scope, exclude: set<Name>,
                                n: Name, emptyOutput: bool, v: Version)
    requires ValidBundle(bundle) && ValidName(n)
    requires Build(bundle, Ascending(Targets(bundle, scope, exclude))).Success?
    requires n in exclude
    ensures var built := Build(bundle, Ascending(Targets(bundle, scope, exclude))).value;
      var files := Files(built.artifacts);
      var names := Ascending(built.artifacts.Keys);
      && n !in built.artifacts
      && Processing(n) !in GenerateEvents(outdir, dir, files, names)
      && Compiling(n, emptyOutput) !in GenerateEvents(outdir, dir, files, names)
      && (Filename(n, v) in Regenerate(dir, map[], files, names) <==> Filename(n, v) in dir)
      && (Filename(n, v) in dir ==> Regenerate(dir, map[], files, names)[Filename(n, v)] == dir[Filename(n, v)])
  {
    var built := Build(bundle, Ascending(Targets(bundle, scope, exclude))).value;
    var files := Files(built.artifacts);
    var names := Ascending(built.artifacts.Keys);
    assert ValidFiles(files);
    GenerateReportsProcessing(outdir, dir, files, names, n);
    GenerateReportsCompiles(outdir, dir, files, names, n, emptyOutput);
    RegenerateAt(dir, map[], files, names);
    ParseFilename(n, v);
    assert !WrittenBy(files, names, Filename(n, v));
  }

  /** `gem NAME` for one gem with a compiled body: that gem alone is built,
      announced, compiled and written, created when its file is absent; the
      directory gains that one file and nothing else changes. */
  lemma GenerateOneGem(outdir: string, dir: Dir, bundle: Bundle, n: Name)
    requires n in bundle && bundle[n].outcome.Content?
    ensures Targets(bundle, Only({n}), {}) == {n}
    ensures var b := Build(bundle, Ascending(Targets(bundle, Only({n}), {})));
      var f := Filename(n, bundle[n].version);
      && b == Success(Built(map[n := Artifact(bundle[n].version, Rbi(bundle[n].outcome.rbi))], []))
      && GenerateEvents(outdir, dir, Files(b.value.artifacts), Ascending(b.value.artifacts.Keys))
         == [Processing(n), Compiling(n, false), Wrote(if f in dir then Force else Create, Path(outdir, f))]
      && Regenerate(dir, map[], Files(b.value.artifacts), Ascending(b.value.artifacts.Keys))
         == dir[f := Header(n) + bundle[n].outcome.rbi]
  {
    assert Targets(bundle, Only({n}), {}) == {n};
    AscendingOne(n);
    var arts := map[n := Artifact(bundle[n].version, Rbi(bundle[n].outcome.rbi))];
    assert Build(bundle, [n]) == Success(Built(arts, []));
    assert arts.Keys == {n};
    var files := Files(arts);
    assert GenerateEvents(outdir, dir, files, [n]) == [] + GenerateGemEvents(outdir, dir, files, n);
  }

  /** `gem foo` on a directory without `foo@0.0.1.rbi`: only foo is announced,
      compiled and created, and only its file is added, holding the header
      and the compiled body. */
  lemma GenerateFoo(outdir: string, dir: Dir, others: Bundle, rbi: string)
    requires "foo" !in others
    requires Filename("foo", "0.0.1") !in dir
    ensures var bundle := others["foo" := Gem("0.0.1", Content(rbi))];
      var b := Build(bundle, Ascending(Targets(bundle, Only({"foo"}), {})));
      && b.Success?
      && GenerateEvents(outdir, dir, Files(b.value.artifacts), Ascending(b.value.artifacts.Keys))
         == [Processing("foo"), Compiling("foo", false), Wrote(Create, Path(outdir, Filename("foo", "0.0.1")))]
      && Regenerate(dir, map[], Files(b.value.artifacts), Ascending(b.value.artifacts.Keys))
         == dir[Filename("foo", "0.0.1") := Header("foo") + rbi]
  {
    GenerateOneGem(outdir, dir, others["foo" := Gem("0.0.1", Content(rbi))], "foo");
  }

  /** After a sync, the file of gem `n` at version `v` is in the directory
      exactly when `n` is wanted at `v`: every other version, and every gem
      no longer wanted, is gone. */
  lemma SyncedGemFile(dir: Dir, files: map<Name, File>, n: Name, v: Version)
    requires Unambiguous(dir) && ValidFiles(files) && ValidName(n)
    ensures Filename(n, v) in Synced(dir, files) <==> n in files && files[n].version == v
  {
    SyncedContents(dir, files);
    ParseFilename(n, v);
  }

  /** A sync with gems excluded leaves no gem RBI of an excluded gem. */
  lemma SyncDropsExcluded(dir: Dir, bundle: Bundle, exclude: set<Name>, n: Name, v: Version)
    requires ValidBundle(bundle) && Unambiguous(dir) && ValidName(n)
    requires Build(bundle, Ascending(Targets(bundle, All, exclude))).Success?
    requires n in exclude
    ensures Filename(n, v) !in Synced(dir, Files(Build(bundle, Ascending(Targets(bundle, All, exclude))).value.artifacts))
  {
    var files := Files(Build(bundle, Ascending(Targets(bundle, All, exclude))).value.artifacts);
    assert ValidFiles(files);
    SyncedGemFile(dir, files, n, v);
  }

  /** The sorted listing of two names given in order. */
  lemma AscendingPair(a: Name, b: Name)
    requires Less(a, b)
    ensures Ascending({a, b}) == [a, b]
  {
    AscendingIsTheSortedListing({a, b}, [a, b]);
  }

  lemma AscendingOne(a: Name)
    ensures Ascending({a}) == [a]
  {
    AscendingIsTheSortedListing({a}, [a]);
  }

  /** The plan of a comparison is the one given by its three sorted lists
      of names. */
  lemma PlanIs(existing: map<Name, Version>, expected: map<Name, Version>,
               added: seq<Name>, changed: seq<Name>, removed: seq<Name>)
    requires StrictlySorted(added) && StrictlySorted(changed) && StrictlySorted(removed)
    requires forall n :: n in added <==> n in expected && n !in existing
    requires forall n :: n in changed <==> n in expected && n in existing && existing[n] != expected[n]
    requires forall n :: n in removed <==> n in existing && n !in expected
    ensures Reconcile(existing, expected) == Plan(added, changed, removed)
  {
    var plan := Reconcile(existing, expected);
    SortedUnique(plan.added, added);
    SortedUnique(plan.changed, changed);
    SortedUnique(plan.removed, removed);
  }

  /** A verify report of drift, given its reason block. */
  lemma DriftReport(outdir: string, existing: map<Name, Version>, expected: map<Name, Version>,
                    reasons: seq<string>)
    requires existing != expected
    requires Reasons(outdir, existing, expected) == reasons
    ensures VerifyReport(outdir, existing, expected) == Report(Preamble + reasons, 1)
  {
  }

  lemma ExcludedPlan(others: map<Name, Version>)
    requires "foo" !in others && "bar" !in others
    ensures Reconcile(others["foo" := "0.0.1"]["bar" := "0.3.0"], others) == Plan([], [], ["bar", "foo"])
  {
    assert Less("bar", "foo");
    PlanIs(others["foo" := "0.0.1"]["bar" := "0.3.0"], others, [], [], ["bar", "foo"]);
  }

  lemma ExcludedReasons(outdir: string, others: map<Name, Version>)
    requires "foo" !in others && "bar" !in others
    ensures Reasons(outdir, others["foo" := "0.0.1"]["bar" := "0.3.0"], others)
         == [RemovedTitle, Bullet(outdir, "bar", "0.3.0"), Bullet(outdir, "foo", "0.0.1")]
  {
    var existing := others["foo" := "0.0.1"]["bar" := "0.3.0"];
    ExcludedPlan(others);
    var bullets := Bullets(outdir, existing, ["bar", "foo"]);
    assert bullets == [Bullet(outdir, "bar", "0.3.0"), Bullet(outdir, "foo", "0.0.1")];
    assert Reasons(outdir, existing, others) == [RemovedTitle] + bullets;
  }

  /** `gem --verify --exclude foo bar` on a directory synced with every gem:
      the files of foo and bar are reported removed, in name order. The
      gems `others` are the rest of the bundle, up to date on disk. */
  lemma VerifyReportsExcluded(outdir: string, others: map<Name, Version>)
    requires "foo" !in others && "bar" !in others
    ensures VerifyReport(outdir, others["foo" := "0.0.1"]["bar" := "0.3.0"], others)
         == Report(Preamble + [RemovedTitle,
                               BulletLead + Path(outdir, Filename("bar", "0.3.0")),
                               BulletLead + Path(outdir, Filename("foo", "0.0.1"))], 1)
  {
    var existing := others["foo" := "0.0.1"]["bar" := "0.3.0"];
    ExcludedReasons(outdir, others);
    assert existing != others by { assert "foo" in existing; }
    DriftReport(outdir, existing, others, [RemovedTitle,
                               BulletLead + Path(outdir, Filename("bar", "0.3.0")),
                               BulletLead + Path(outdir, Filename("foo", "0.0.1"))]);
  }

  lemma DriftPlan(others: map<Name, Version>)
    requires "foo" !in others && "bar" !in others && "outdated" !in others
    ensures Reconcile(others["bar" := "0.2.0"]["outdated" := "5.0.0"], others["foo" := "0.0.1"]["bar" := "0.3.0"])
         == Plan(["foo"], ["bar"], ["outdated"])
  {
    PlanIs(others["bar" := "0.2.0"]["outdated" := "5.0.0"], others["foo" := "0.0.1"]["bar" := "0.3.0"],
           ["foo"], ["bar"], ["outdated"]);
  }

  lemma DriftReasons(outdir: string, others: map<Name, Version>)
    requires "foo" !in others && "bar" !in others && "outdated" !in others
    ensures Reasons(outdir, others["bar" := "0.2.0"]["outdated" := "5.0.0"], others["foo" := "0.0.1"]["bar" := "0.3.0"])
         == [AddedTitle, Bullet(outdir, "foo", "0.0.1"), ChangedTitle, Bullet(outdir, "bar", "0.3.0"),
             RemovedTitle, Bullet(outdir, "outdated", "5.0.0")]
  {
    var existing := others["bar" := "0.2.0"]["outdated" := "5.0.0"];
    var expected := others["foo" := "0.0.1"]["bar" := "0.3.0"];
    DriftPlan(others);
    assert Bullets(outdir, expected, ["foo"]) == [Bullet(outdir, "foo", "0.0.1")];
    assert Bullets(outdir, expected, ["bar"]) == [Bullet(outdir, "bar", "0.3.0")];
    assert Bullets(outdir, existing, ["outdated"]) == [Bullet(outdir, "outdated", "5.0.0")];
  }

  /** `gem --verify` after foo's file was deleted, bar's renamed to an older
      version and a stray file added: foo is reported added, bar changed at
      its expected version, the stray file removed. */
  lemma VerifyReportsDrift(outdir: string, others: map<Name, Version>)
    requires "foo" !in others && "bar" !in others && "outdated" !in others
    ensures VerifyReport(outdir, others["bar" := "0.2.0"]["outdated" := "5.0.0"],
                         others["foo" := "0.0.1"]["bar" := "0.3.0"])
         == Report(Preamble + [AddedTitle,
                               BulletLead + Path(outdir, Filename("foo", "0.0.1")),
                               ChangedTitle,
                               BulletLead + Path(outdir, Filename("bar", "0.3.0")),
                               RemovedTitle,
                               BulletLead + Path(outdir, Filename("outdated", "5.0.0"))], 1)
  {
    var existing := others["bar" := "0.2.0"]["outdated" := "5.0.0"];
    var expected := others["foo" := "0.0.1"]["bar" := "0.3.0"];
    DriftReasons(outdir, others);
    assert existing != expected by { assert "outdated" in existing; }
    DriftReport(outdir, existing, expected, [AddedTitle,
                               BulletLead + Path(outdir, Filename("foo", "0.0.1")),
                               ChangedTitle,
                               BulletLead + Path(outdir, Filename("bar", "0.3.0")),
                               RemovedTitle,
                               BulletLead + Path(outdir, Filename("outdated", "5.0.0"))]);
  }

  /** The events of a sync, given those of its removal phase and of its
      generation phase. */
  lemma SyncEventsWith(outdir: string, existing: map<Name, Version>, files: map<Name, File>,
                       missing: seq<(Name, Version)>, removal: seq<Event>, generation: seq<Event>)
    requires RemovalEvents(outdir, existing, Ascending(existing.Keys - Expected(files).Keys)) == removal
    requires GenerationEvents(outdir, existing, files, Ascending(Stale(existing, Expected(files)))) == generation
    ensures SyncEvents(outdir, existing, files, missing)
         == MissingLog(missing) + Phase(RemovalHeading, removal) + Phase(GenerationHeading, generation)
  {
  }

  /** The generation events of two gems, in order. */
  lemma TwoGems(outdir: string, existing: map<Name, Version>, files: map<Name, File>, a: Name, b: Name)
    requires a in files && b in files
    ensures GenerationEvents(outdir, existing, files, [a, b])
         == GemEvents(outdir, existing, files, a) + GemEvents(outdir, existing, files, b)
  {
    assert [a, b][..1] == [a] && [a][..0] == [];
    assert GenerationEvents(outdir, existing, files, [a]) == [] + GemEvents(outdir, existing, files, a);
  }

  /** The events of a gem new to the directory. */
  lemma AddedGem(outdir: string, existing: map<Name, Version>, files: map<Name, File>, n: Name, v: Version)
    requires n !in existing && n in files && files[n].version == v
    ensures GemEvents(outdir, existing, files, n)
         == [Compiling(n, files[n].emptyOutput), Wrote(Create, Path(outdir, Filename(n, v)))]
  {
  }

  /** The events of a gem whose file is on disk at version `w`. */
  lemma MovedGem(outdir: string, existing: map<Name, Version>, files: map<Name, File>, n: Name, w: Version, v: Version)
    requires n in existing && existing[n] == w && n in files && files[n].version == v
    ensures GemEvents(outdir, existing, files, n)
         == [Moving(Path(outdir, Filename(n, w)), Path(outdir, Filename(n, v))),
             Compiling(n, files[n].emptyOutput), Wrote(Force, Path(outdir, Filename(n, v)))]
  {
  }

  /** A sync whose removal phase has nothing to do. */
  lemma GenerationOnly(outdir: string, existing: map<Name, Version>, files: map<Name, File>,
                       missing: seq<(Name, Version)>, generation: seq<Event>)
    requires existing.Keys - Expected(files).Keys == {}
    requires GenerationEvents(outdir, existing, files, Ascending(Stale(existing, Expected(files)))) == generation
    requires generation != []
    ensures SyncEvents(outdir, existing, files, missing)
         == MissingLog(missing) + [RemovalHeading, Blank, NothingToDo] + [GenerationHeading, Blank] + generation
  {
    var removal := Phase(RemovalHeading, []);
    var regeneration := Phase(GenerationHeading, generation);
    assert SyncEvents(outdir, existing, files, missing) == MissingLog(missing) + removal + regeneration by {
      assert Ascending({}) == [];
      assert RemovalEvents(outdir, existing, []) == [];
      SyncEventsWith(outdir, existing, files, missing, [], generation);
    }
    assert removal == [RemovalHeading, Blank, NothingToDo];
    assert regeneration == [GenerationHeading, Blank] + generation;
    assert MissingLog(missing) + removal + regeneration
        == MissingLog(missing) + removal + [GenerationHeading, Blank] + generation;
  }

  /** A sync whose generation phase has nothing to do. */
  lemma RemovalOnly(outdir: string, existing: map<Name, Version>, files: map<Name, File>,
                    missing: seq<(Name, Version)>, removal: seq<Event>)
    requires Stale(existing, Expected(files)) == {}
    requires RemovalEvents(outdir, existing, Ascending(existing.Keys - Expected(files).Keys)) == removal
    requires removal != []
    ensures SyncEvents(outdir, existing, files, missing)
         == MissingLog(missing) + [RemovalHeading, Blank] + removal + [GenerationHeading, Blank, NothingToDo]
  {
    var deletion := Phase(RemovalHeading, removal);
    var regeneration := Phase(GenerationHeading, []);
    assert SyncEvents(outdir, existing, files, missing) == MissingLog(missing) + deletion + regeneration by {
      assert Ascending({}) == [];
      assert GenerationEvents(outdir, existing, files, []) == [];
      SyncEventsWith(outdir, existing, files, missing, removal, []);
    }
    assert deletion == [RemovalHeading, Blank] + removal;
    assert regeneration == [GenerationHeading, Blank, NothingToDo];
    assert MissingLog(missing) + deletion == MissingLog(missing) + [RemovalHeading, Blank] + removal;
  }

  lemma ExcludedRemovals(others: map<Name, Version>, files: map<Name, File>)
    requires "foo" !in others && "bar" !in others
    requires Expected(files) == others
    ensures var existing := others["foo" := "0.0.1"]["bar" := "0.3.0"];
      Ascending(existing.Keys - Expected(files).Keys) == ["bar", "foo"] && Stale(existing, Expected(files)) == {}
  {
    var existing := others["foo" := "0.0.1"]["bar" := "0.3.0"];
    assert existing.Keys - Expected(files).Keys == {"bar", "foo"};
    assert Less("bar", "foo");
    AscendingPair("bar", "foo");
  }

  /** `gem --exclude foo bar` after a full sync: the files of foo and bar
      are deleted, in name order, and nothing is generated. */
  lemma SyncRemovesExcluded(outdir: string, others: map<Name, Version>, files: map<Name, File>,
                            missing: seq<(Name, Version)>)
    requires "foo" !in others && "bar" !in others
    requires Expected(files) == others
    ensures SyncEvents(outdir, others["foo" := "0.0.1"]["bar" := "0.3.0"], files, missing)
         == MissingLog(missing)
            + [RemovalHeading, Blank]
            + [Removing(Path(outdir, Filename("bar", "0.3.0"))), Removing(Path(outdir, Filename("foo", "0.0.1")))]
            + [GenerationHeading, Blank, NothingToDo]
  {
    var existing := others["foo" := "0.0.1"]["bar" := "0.3.0"];
    var removal := [Removing(Path(outdir, Filename("bar", "0.3.0"))), Removing(Path(outdir, Filename("foo", "0.0.1")))];
    ExcludedRemovals(others, files);
    assert ["bar", "foo"][..1] == ["bar"];
    assert RemovalEvents(outdir, existing, ["bar", "foo"]) == removal;
    RemovalOnly(outdir, existing, files, missing, removal);
  }

  /** `gem` after a stray file of an unknown gem appeared: that file is
      deleted and nothing is generated. */
  lemma SyncRemovesOutdated(outdir: string, others: map<Name, Version>, files: map<Name, File>,
                            missing: seq<(Name, Version)>)
    requires "outdated" !in others
    requires Expected(files) == others
    ensures SyncEvents(outdir, others["outdated" := "5.0.0"], files, missing)
         == MissingLog(missing)
            + [RemovalHeading, Blank]
            + [Removing(Path(outdir, Filename("outdated", "5.0.0")))]
            + [GenerationHeading, Blank, NothingToDo]
  {
    var existing := others["outdated" := "5.0.0"];
    var removal := [Removing(Path(outdir, Filename("outdated", "5.0.0")))];
    assert existing.Keys - Expected(files).Keys == {"outdated"};
    assert Stale(existing, Expected(files)) == {};
    AscendingOne("outdated");
    assert RemovalEvents(outdir, existing, ["outdated"]) == removal;
    RemovalOnly(outdir, existing, files, missing, removal);
  }

  /** `gem` when only foo's file is on disk: nothing is removed; bar and baz
      are compiled and their files created, in name order. */
  lemma SyncAddsMissing(outdir: string, others: map<Name, Version>, files: map<Name, File>,
                        missing: seq<(Name, Version)>)
    requires "foo" !in others && "bar" !in others && "baz" !in others
    requires Expected(files) == others["foo" := "0.0.1"]["bar" := "0.3.0"]["baz" := "0.0.2"]
    ensures "bar" in files && "baz" in files
    ensures SyncEvents(outdir, others["foo" := "0.0.1"], files, missing)
         == MissingLog(missing)
            + [RemovalHeading, Blank, NothingToDo]
            + [GenerationHeading, Blank]
            + [Compiling("bar", files["bar"].emptyOutput), Wrote(Create, Path(outdir, Filename("bar", "0.3.0")))]
            + [Compiling("baz", files["baz"].emptyOutput), Wrote(Create, Path(outdir, Filename("baz", "0.0.2")))]
  {
    var existing := others["foo" := "0.0.1"];
    assert "bar" in Expected(files) && "baz" in Expected(files);
    AddedGem(outdir, existing, files, "bar", "0.3.0");
    AddedGem(outdir, existing, files, "baz", "0.0.2");
    assert existing.Keys - Expected(files).Keys == {};
    assert Stale(existing, Expected(files)) == {"bar", "baz"};
    assert Less("bar", "baz");
    AscendingPair("bar", "baz");
    TwoGems(outdir, existing, files, "bar", "baz");
    GenerationOnly(outdir, existing, files, missing,
                   GemEvents(outdir, existing, files, "bar") + GemEvents(outdir, existing, files, "baz"));
  }

  /** `gem` when bar's and baz's files are at an old version: each is moved
      to its new name, compiled and overwritten, in name order; nothing is
      removed. */
  lemma SyncMovesOutdated(outdir: string, others: map<Name, Version>, files: map<Name, File>,
                          missing: seq<(Name, Version)>)
    requires "foo" !in others && "bar" !in others && "baz" !in others
    requires Expected(files) == others["foo" := "0.0.1"]["bar" := "0.3.0"]["baz" := "0.0.2"]
    ensures "bar" in files && "baz" in files
    ensures SyncEvents(outdir, others["foo" := "0.0.1"]["bar" := "0.0.1"]["baz" := "0.0.1"], files, missing)
         == MissingLog(missing)
            + [RemovalHeading, Blank, NothingToDo]
            + [GenerationHeading, Blank]
            + [Moving(Path(outdir, Filename("bar", "0.0.1")), Path(outdir, Filename("bar", "0.3.0"))),
               Compiling("bar", files["bar"].emptyOutput),
               Wrote(Force, Path(outdir, Filename("bar", "0.3.0")))]
            + [Moving(Path(outdir, Filename("baz", "0.0.1")), Path(outdir, Filename("baz", "0.0.2"))),
               Compiling("baz", files["baz"].emptyOutput),
               Wrote(Force, Path(outdir, Filename("baz", "0.0.2")))]
  {
    var existing := others["foo" := "0.0.1"]["bar" := "0.0.1"]["baz" := "0.0.1"];
    assert "bar" in Expected(files) && "baz" in Expected(files);
    MovedGem(outdir, existing, files, "bar", "0.0.1", "0.3.0");
    MovedGem(outdir, existing, files, "baz", "0.0.1", "0.0.2");
    assert existing.Keys - Expected(files).Keys == {};
    assert Stale(existing, Expected(files)) == {"bar", "baz"};
    assert Less("bar", "baz");
    AscendingPair("bar", "baz");
    TwoGems(outdir, existing, files, "bar", "baz");
    GenerationOnly(outdir, existing, files, missing,
                   GemEvents(outdir, existing, files, "bar") + GemEvents(outdir, existing, files, "baz"));
  }
}
