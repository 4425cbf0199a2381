/** The engine: the output directory a run works on, and the three runs of
    the `gem` command over it. A sync deletes, renames and writes files one
    at a time; a generation writes the files of the gems asked for; a
    verify only reads. */
module Engine {
  import opened Wrappers
  import opened Ordering
  import opened Identity
  import opened Builder
  import opened Reconciler
  import opened Log
  import opened Phases
  import opened Reporter

  /** The gems a build gives files for are gems of the bundle, so their
      names are valid. */
  lemma BuiltFilesValid(bundle: Bundle, names: seq<Name>)
    requires ValidBundle(bundle)
    requires forall k :: 0 <= k < |names| ==> names[k] in bundle
    requires Build(bundle, names).Success?
    ensures ValidFiles(Files(Build(bundle, names).value.artifacts))
  {
  }

  /** The output directory (file name to text) and the console of a run. */
  class OutputDir {
    const outdir: string
    const postrequire: string
    var files: Dir
    var log: seq<Event>

    constructor (outdir: string, postrequire: string, files: Dir)
      ensures this.outdir == outdir && this.postrequire == postrequire
      ensures this.files == files && log == []
    {
      this.outdir := outdir;
      this.postrequire := postrequire;
      this.files := files;
      log := [];
    }

    /** The removal phase: announces itself, then deletes the file of each
        gem of `removed`, reporting each deletion, or reports that there is
        nothing to do. */
    method PerformRemovals(existing: map<Name, Version>, removed: seq<Name>)
      requires forall n :: n in removed ==> n in existing
      modifies this
      ensures files == Prune(old(files), existing, removed)
      ensures log == old(log) + Phase(RemovalHeading, RemovalEvents(outdir, existing, removed))
    {
      log := log + [RemovalHeading, Blank];
      RemovalEventsAre(outdir, existing, removed);
      if removed == [] {
        log := log + [NothingToDo];
        assert files == Prune(old(files), existing, removed);
        return;
      }
      ghost var start := log;
      var i := 0;
      while i < |removed|
        invariant 0 <= i <= |removed|
        invariant files == Prune(old(files), existing, removed[..i])
        invariant log == start + RemovalEvents(outdir, existing, removed[..i])
      {
        var n := removed[i];
        var f := Filename(n, existing[n]);
        log := log + [Removing(Path(outdir, f))];
        files := files - {f};
        PruneStep(old(files), existing, removed, i);
        assert removed[..i + 1][..i] == removed[..i];
        i := i + 1;
      }
      assert removed[..i] == removed;
    }

    /** One gem of the generation phase: a changed gem's old file is moved
        to its new name, then the freshly built text is written there. */
    method RegenerateGem(existing: map<Name, Version>, wanted: map<Name, File>, n: Name)
      requires n in wanted
      requires n in existing ==> Filename(n, existing[n]) in files
      modifies this
      ensures files == (if n in existing then old(files) - {Filename(n, existing[n])} else old(files))
                         [Target(wanted, n) := wanted[n].text]
      ensures log == old(log) + GemEvents(outdir, existing, wanted, n)
    {
      var to := Target(wanted, n);
      if n in existing {
        var from := Filename(n, existing[n]);
        log := log + [Moving(Path(outdir, from), Path(outdir, to))];
        var content := files[from];
        files := files - {from};
        files := files[to := content];
      }
      log := log + [Compiling(n, wanted[n].emptyOutput)];
      files := files[to := wanted[n].text];
      log := log + [Wrote(if n in existing then Force else Create, Path(outdir, to))];
    }

    /** The generation phase: announces itself, then regenerates the gems
        `names` in order, or reports that there is nothing to do. */
    method PerformAdditions(existing: map<Name, Version>, wanted: map<Name, File>, names: seq<Name>)
      requires forall n :: n in names ==> n in wanted
      requires ValidFiles(wanted)
      requires StrictlySorted(names)
      requires forall n :: n in names && n in existing ==> Filename(n, existing[n]) in files
      modifies this
      ensures files == Regenerate(old(files), existing, wanted, names)
      ensures log == old(log) + Phase(GenerationHeading, GenerationEvents(outdir, existing, wanted, names))
    {
      log := log + [GenerationHeading, Blank];
      GenerationEventsEmpty(outdir, existing, wanted, names);
      if names == [] {
        log := log + [NothingToDo];
        return;
      }
      RegenerateGems(existing, wanted, names);
    }

    /** Regenerates the gems `names`, one after the other. */
    method RegenerateGems(existing: map<Name, Version>, wanted: map<Name, File>, names: seq<Name>)
      requires forall n :: n in names ==> n in wanted
      requires ValidFiles(wanted)
      requires StrictlySorted(names)
      requires forall n :: n in names && n in existing ==> Filename(n, existing[n]) in files
      modifies this
      ensures files == Regenerate(old(files), existing, wanted, names)
      ensures log == old(log) + GenerationEvents(outdir, existing, wanted, names)
    {
      var i := 0;
      while i < |names|
        invariant 0 <= i <= |names|
        invariant files == Regenerate(old(files), existing, wanted, names[..i])
        invariant log == old(log) + GenerationEvents(outdir, existing, wanted, names[..i])
        invariant forall k :: i <= k < |names| && names[k] in existing ==>
          Filename(names[k], existing[names[k]]) in files
      {
        RegenerateGem(existing, wanted, names[i]);
        RegenerateStep(old(files), existing, wanted, names, i);
        GenerationEventsStep(outdir, existing, wanted, names, i);
        forall k | i + 1 <= k < |names| && names[k] in existing
          ensures Filename(names[k], existing[names[k]]) in files
        {
          LaterSourcesUntouched(existing, wanted, names, i, k);
        }
        i := i + 1;
      }
      assert names[..i] == names;
    }

    /** Writes the files of the gems `names`, in order: each is announced,
        compiled and written, created when absent and overwritten when
        present. Files of other versions are left where they are. */
    method WriteGems(wanted: map<Name, File>, names: seq<Name>)
      requires forall n :: n in names ==> n in wanted
      requires ValidFiles(wanted)
      requires StrictlySorted(names)
      modifies this
      ensures files == Regenerate(old(files), map[], wanted, names)
      ensures log == old(log) + GenerateEvents(outdir, old(files), wanted, names)
    {
      var i := 0;
      while i < |names|
        invariant 0 <= i <= |names|
        invariant files == Regenerate(old(files), map[], wanted, names[..i])
        invariant log == old(log) + GenerateEvents(outdir, old(files), wanted, names[..i])
        invariant forall k :: i <= k < |names| ==>
          (Target(wanted, names[k]) in files <==> Target(wanted, names[k]) in old(files))
      {
        var n := names[i];
        var to := Target(wanted, n);
        log := log + [Processing(n), Compiling(n, wanted[n].emptyOutput),
                      Wrote(if to in files then Force else Create, Path(outdir, to))];
        files := files[to := wanted[n].text];
        RegenerateStep(old(files), map[], wanted, names, i);
        GenerateEventsStep(outdir, old(files), wanted, names, i);
        forall k | i + 1 <= k < |names|
          ensures Target(wanted, names[k]) in files <==> Target(wanted, names[k]) in old(files)
        {
          LaterTargetsDistinct(wanted, names, i, k);
        }
        i := i + 1;
      }
      assert names[..i] == names;
    }

    /** Brings the directory in line with a successful build: the removal
        phase, then the generation phase, each announced by its heading and
        reporting "Nothing to do." when it has nothing to do. */
    method Apply(built: Built)
      requires Unambiguous(files) && ValidFiles(Files(built.artifacts))
      modifies this
      ensures files == Synced(old(files), Files(built.artifacts))
      ensures log == old(log) + SyncLog(outdir, old(files), Files(built.artifacts), built.missing)
    {
      var wanted := Files(built.artifacts);
      var existing := Existing(files);
      var expected := Expected(wanted);
      var removed := Ascending(existing.Keys - expected.Keys);
      var stale := Ascending(Stale(existing, expected));
      ghost var missing := MissingLog(built.missing);
      ghost var removal := Phase(RemovalHeading, RemovalEvents(outdir, existing, removed));
      log := log + MissingLog(built.missing);
      PerformRemovals(existing, removed);
      PruneRemovesUnwanted(old(files), wanted);
      forall n | n in stale && n in existing
        ensures Filename(n, existing[n]) in files
      {
        ParseFilename(n, existing[n]);
      }
      ghost var generation := Phase(GenerationHeading, GenerationEvents(outdir, existing, wanted, stale));
      PerformAdditions(existing, wanted, stale);
      assert SyncLog(outdir, old(files), wanted, built.missing) == missing + removal + generation;
      assert log == old(log) + missing + removal + generation;
      AppendAssociative(old(log), missing, removal, generation);
    }

    /** A plain `gem` run: builds every gem of the bundle not excluded, then
        brings the directory in line with the build. A build that fails
        stops the run before any file is touched. */
    method Sync(bundle: Bundle, exclude: set<Name>) returns (ok: bool)
      requires ValidBundle(bundle) && Unambiguous(files)
      modifies this
      ensures var b := Build(bundle, Ascending(Targets(bundle, All, exclude)));
        && (ok <==> b.Success?)
        && (ok ==> files == Synced(old(files), Files(b.value.artifacts)))
        && (ok ==> log == old(log) + SyncLog(outdir, old(files), Files(b.value.artifacts), b.value.missing))
        && (!ok ==> files == old(files) && log == old(log) + [LoadFailed(b.error, postrequire)])
    {
      var names := Ascending(Targets(bundle, All, exclude));
      var b := Build(bundle, names);
      if b.Success? {
        BuiltFilesValid(bundle, names);
      }
      ok := SyncWith(b);
    }

    /** A sync once the build is done: a failed build is reported and
        changes nothing; a successful one is applied. */
    method SyncWith(b: Result<Built, string>) returns (ok: bool)
      requires Unambiguous(files)
      requires b.Success? ==> ValidFiles(Files(b.value.artifacts))
      modifies this
      ensures ok <==> b.Success?
      ensures ok ==> files == Synced(old(files), Files(b.value.artifacts))
      ensures ok ==> log == old(log) + SyncLog(outdir, old(files), Files(b.value.artifacts), b.value.missing)
      ensures !ok ==> files == old(files) && log == old(log) + [LoadFailed(b.error, postrequire)]
    {
      if b.Failure? {
        log := log + [LoadFailed(b.error, postrequire)];
        ok := false;
      } else {
        Apply(b.value);
        ok := true;
      }
    }

    /** Writes the files of a successful build, after reporting the gems
        it skipped for a missing spec. */
    method Emit(built: Built)
      requires ValidFiles(Files(built.artifacts))
      modifies this
      ensures files == Regenerate(old(files), map[], Files(built.artifacts), Ascending(built.artifacts.Keys))
      ensures log == old(log) + MissingLog(built.missing)
                     + GenerateEvents(outdir, old(files), Files(built.artifacts), Ascending(built.artifacts.Keys))
    {
      log := log + MissingLog(built.missing);
      WriteGems(Files(built.artifacts), Ascending(built.artifacts.Keys));
    }

    /** `gem NAME...` or `gem --all`: builds the gems asked for, less the
        excluded ones, and writes the file of each; nothing is removed. A
        build that fails stops the run before any file is touched. */
    method Generate(bundle: Bundle, scope: Scope, exclude: set<Name>) returns (ok: bool)
      requires ValidBundle(bundle)
      modifies this
      ensures var b := Build(bundle, Ascending(Targets(bundle, scope, exclude)));
        && (ok <==> b.Success?)
        && (ok ==> files == Regenerate(old(files), map[], Files(b.value.artifacts), Ascending(b.value.artifacts.Keys)))
        && (ok ==> log == old(log) + MissingLog(b.value.missing)
                            + GenerateEvents(outdir, old(files), Files(b.value.artifacts), Ascending(b.value.artifacts.Keys)))
        && (!ok ==> files == old(files) && log == old(log) + [LoadFailed(b.error, postrequire)])
    {
      var names := Ascending(Targets(bundle, scope, exclude));
      var b := Build(bundle, names);
      if b.Failure? {
        log := log + [LoadFailed(b.error, postrequire)];
        ok := false;
      } else {
        BuiltFilesValid(bundle, names);
        Emit(b.value);
        ok := true;
      }
    }

    /** `gem --verify`: compares the directory with the versions the bundle
        expects, without compiling anything and without changing anything. */
    function Verify(bundle: Bundle, exclude: set<Name>): (r: Report)
      reads this
      requires Unambiguous(files)
      ensures r.exit == 0 <==> Existing(files) == ExpectedVersions(bundle, exclude)
      ensures r.exit == 0 ==> r.lines == [Checking, "", AllUpToDate]
      ensures r.exit == 1 ==> r.lines == Preamble + Reasons(outdir, Existing(files), ExpectedVersions(bundle, exclude))
    {
      VerifyReport(outdir, Existing(files), ExpectedVersions(bundle, exclude))
    }
  }
}

