/** What a sync reports: the events of the removal phase and of the
    generation phase, gem by gem, in name order. */
module Phases {
  import opened Ordering
  import opened Identity
  import opened Builder
  import opened Reconciler
  import opened Log

  /** The events of deleting the files of the gems `removed`, in order. */
  function RemovalEvents(outdir: string, existing: map<Name, Version>, removed: seq<Name>): (r: seq<Event>)
    requires forall n :: n in removed ==> n in existing
    decreases |removed|
  {
    if removed == [] then []
    else
      var n := removed[|removed| - 1];
      RemovalEvents(outdir, existing, removed[..|removed| - 1]) + [Removing(Path(outdir, Filename(n, existing[n])))]
  }

  /** The events of regenerating gem `n`: a changed gem's old file is moved
      to its new name first; the file is then compiled and written, created
      when the gem is new and overwritten when it was moved. */
  function GemEvents(outdir: string, existing: map<Name, Version>, files: map<Name, File>, n: Name): seq<Event>
    requires n in files
  {
    var to := Path(outdir, Target(files, n));
    (if n in existing then [Moving(Path(outdir, Filename(n, existing[n])), to)] else [])
      + [Compiling(n, files[n].emptyOutput), Wrote(if n in existing then Force else Create, to)]
  }

  /** The events of regenerating the gems `names`, in order. */
  function GenerationEvents(outdir: string, existing: map<Name, Version>, files: map<Name, File>,
                            names: seq<Name>): seq<Event>
    requires forall n :: n in names ==> n in files
    decreases |names|
  {
    if names == [] then []
    else
      var n := names[|names| - 1];
      GenerationEvents(outdir, existing, files, names[..|names| - 1]) + GemEvents(outdir, existing, files, n)
  }

  lemma GenerationEventsStep(outdir: string, existing: map<Name, Version>, files: map<Name, File>,
                             names: seq<Name>, i: nat)
    requires forall n :: n in names ==> n in files
    requires i < |names|
    ensures GenerationEvents(outdir, existing, files, names[..i + 1])
         == GenerationEvents(outdir, existing, files, names[..i]) + GemEvents(outdir, existing, files, names[i])
  {
    assert names[..i + 1][..i] == names[..i];
  }

  /** A phase: its heading, a blank line, then its events, or "Nothing to
      do." when it has none. */
  function Phase(heading: Event, events: seq<Event>): (r: seq<Event>)
    ensures |r| >= 3 && r[..2] == [heading, Blank]
    ensures events == [] ==> r == [heading, Blank, NothingToDo]
    ensures events != [] ==> r[2..] == events
  {
    [heading, Blank] + (if events == [] then [NothingToDo] else events)
  }

  /** The report of the gems skipped for a missing spec, if any. */
  function MissingLog(missing: seq<(Name, Version)>): seq<Event> {
    if missing == [] then [] else [MissingSpecs(missing)]
  }

  /** Everything a successful sync of `dir` reports, given the files a
      build wants and the gems it skipped for a missing spec. */
  function SyncLog(outdir: string, dir: Dir, files: map<Name, File>, missing: seq<(Name, Version)>): seq<Event>
    requires Unambiguous(dir)
  {
    SyncEvents(outdir, Existing(dir), files, missing)
  }

  /** Everything a successful sync reports, given the gems on disk. */
  function SyncEvents(outdir: string, existing: map<Name, Version>, files: map<Name, File>,
                  missing: seq<(Name, Version)>): seq<Event>
  {
    var expected := Expected(files);
    MissingLog(missing)
      + Phase(RemovalHeading, RemovalEvents(outdir, existing, Ascending(existing.Keys - expected.Keys)))
      + Phase(GenerationHeading, GenerationEvents(outdir, existing, files, Ascending(Stale(existing, expected))))
  }

  /** The removal phase reports one deletion per removed gem, and nothing
      else. */
  lemma {:induction false} RemovalEventsAre(outdir: string, existing: map<Name, Version>, removed: seq<Name>)
    requires forall n :: n in removed ==> n in existing
    ensures |RemovalEvents(outdir, existing, removed)| == |removed|
    ensures forall e :: e in RemovalEvents(outdir, existing, removed) <==>
      exists n :: n in removed && e == Removing(Path(outdir, Filename(n, existing[n])))
    decreases |removed|
  {
    if removed != [] {
      var init := removed[..|removed| - 1];
      var n := removed[|removed| - 1];
      assert removed == init + [n];
      assert forall m :: m in removed <==> m in init || m == n;
      RemovalEventsAre(outdir, existing, init);
    }
  }

  /** The generation phase reports exactly the events of each regenerated
      gem. */
  lemma {:induction false} GenerationEventsAre(outdir: string, existing: map<Name, Version>,
                                               files: map<Name, File>, names: seq<Name>)
    requires forall n :: n in names ==> n in files
    ensures forall e :: e in GenerationEvents(outdir, existing, files, names) <==>
      exists n :: n in names && e in GemEvents(outdir, existing, files, n)
    decreases |names|
  {
    if names != [] {
      var init := names[..|names| - 1];
      var n := names[|names| - 1];
      assert names == init + [n];
      assert forall m :: m in names <==> m in init || m == n;
      GenerationEventsAre(outdir, existing, files, init);
    }
  }

  /** A generation phase reports no write, move or deletion exactly when it
      regenerates no gem. */
  lemma GenerationEventsEmpty(outdir: string, existing: map<Name, Version>, files: map<Name, File>,
                              names: seq<Name>)
    requires forall n :: n in names ==> n in files
    ensures GenerationEvents(outdir, existing, files, names) == [] <==> names == []
  {
    if names != [] {
      GenerationEventsAre(outdir, existing, files, names);
      var n := names[0];
      assert Compiling(n, files[n].emptyOutput) in GemEvents(outdir, existing, files, n);
    }
  }

  /** An event of a sync's report other than a heading, a blank line, "Nothing
      to do." or the missing-spec line comes from one of the two phases. */
  lemma SyncEventsHas(outdir: string, existing: map<Name, Version>, files: map<Name, File>, missing: seq<(Name, Version)>, e: Event)
    requires !e.RemovalHeading? && !e.GenerationHeading? && !e.Blank? && !e.NothingToDo? && !e.MissingSpecs?
    ensures var expected := Expected(files);
      e in SyncEvents(outdir, existing, files, missing) <==>
        || e in RemovalEvents(outdir, existing, Ascending(existing.Keys - expected.Keys))
        || e in GenerationEvents(outdir, existing, files, Ascending(Stale(existing, expected)))
  {
    var expected := Expected(files);
    var removal := RemovalEvents(outdir, existing, Ascending(existing.Keys - expected.Keys));
    var generation := GenerationEvents(outdir, existing, files, Ascending(Stale(existing, expected)));
    InPhase(RemovalHeading, removal, e);
    InPhase(GenerationHeading, generation, e);
    assert e !in MissingLog(missing);
    assert SyncEvents(outdir, existing, files, missing)
        == MissingLog(missing) + Phase(RemovalHeading, removal) + Phase(GenerationHeading, generation);
  }

  lemma InPhase(heading: Event, events: seq<Event>, e: Event)
    requires e != heading && !e.Blank? && !e.NothingToDo?
    ensures e in Phase(heading, events) <==> e in events
  {
  }

  /** The events a phase of regeneration reports for one gem are moves,
      compilations and writes; never deletions. */
  lemma NoRemovalInGeneration(outdir: string, existing: map<Name, Version>, files: map<Name, File>,
                              names: seq<Name>, p: string)
    requires forall n :: n in names ==> n in files
    ensures Removing(p) !in GenerationEvents(outdir, existing, files, names)
  {
    GenerationEventsAre(outdir, existing, files, names);
    forall n | n in names
      ensures Removing(p) !in GemEvents(outdir, existing, files, n)
    {
    }
  }

  /** A sync reports the deletion of exactly the files of the gems on disk
      that are no longer wanted. */
  lemma SyncReportsRemovals(outdir: string, existing: map<Name, Version>, files: map<Name, File>,
                            missing: seq<(Name, Version)>, p: string)
    ensures Removing(p) in SyncEvents(outdir, existing, files, missing) <==>
      exists n :: n in existing && n !in files && p == Path(outdir, Filename(n, existing[n]))
  {
    var expected := Expected(files);
    var removed := Ascending(existing.Keys - expected.Keys);
    RemovingOnlyInRemoval(outdir, existing, files, missing, p);
    RemovalEventsAre(outdir, existing, removed);
    if Removing(p) in RemovalEvents(outdir, existing, removed) {
      var n :| n in removed && Removing(p) == Removing(Path(outdir, Filename(n, existing[n])));
      assert n in existing && n !in files;
    }
    if exists n :: n in existing && n !in files && p == Path(outdir, Filename(n, existing[n])) {
      var n :| n in existing && n !in files && p == Path(outdir, Filename(n, existing[n]));
      assert n in removed;
    }
  }

  lemma RemovingOnlyInRemoval(outdir: string, existing: map<Name, Version>, files: map<Name, File>,
                              missing: seq<(Name, Version)>, p: string)
    ensures var expected := Expected(files);
      var removal := RemovalEvents(outdir, existing, Ascending(existing.Keys - expected.Keys));
      Removing(p) in SyncEvents(outdir, existing, files, missing) <==> Removing(p) in removal
  {
    var expected := Expected(files);
    SyncEventsHas(outdir, existing, files, missing, Removing(p));
    NoRemovalInGeneration(outdir, existing, files, Ascending(Stale(existing, expected)), p);
  }

  /** A sync's report of one gem's regeneration. */
  lemma SyncReportsGem(outdir: string, existing: map<Name, Version>, files: map<Name, File>,
                       missing: seq<(Name, Version)>, e: Event)
    requires e.Moving? || e.Wrote? || e.Compiling?
    ensures e in SyncEvents(outdir, existing, files, missing) <==>
      exists n :: n in files && (n !in existing || existing[n] != files[n].version)
        && e in GemEvents(outdir, existing, files, n)
  {
    var expected := Expected(files);
    var removed := Ascending(existing.Keys - expected.Keys);
    var stale := Ascending(Stale(existing, expected));
    SyncEventsHas(outdir, existing, files, missing, e);
    RemovalEventsAre(outdir, existing, removed);
    GenerationEventsAre(outdir, existing, files, stale);
  }

  /** A sync reports a move exactly for each gem whose version changed, from
      its file on disk to the file of its new version. */
  lemma SyncReportsMoves(outdir: string, existing: map<Name, Version>, files: map<Name, File>,
                         missing: seq<(Name, Version)>, from: string, to: string)
    ensures Moving(from, to) in SyncEvents(outdir, existing, files, missing) <==>
      exists n :: n in existing && n in files && existing[n] != files[n].version
        && from == Path(outdir, Filename(n, existing[n])) && to == Path(outdir, Target(files, n))
  {
    SyncReportsGem(outdir, existing, files, missing, Moving(from, to));
    forall m | m in files
      ensures Moving(from, to) in GemEvents(outdir, existing, files, m) <==>
        m in existing && from == Path(outdir, Filename(m, existing[m])) && to == Path(outdir, Target(files, m))
    {
      MovingInGem(outdir, existing, files, m, from, to);
    }
  }

  /** A sync reports a write exactly for each wanted gem not on disk at its
      wanted version: a creation for a new gem, an overwrite for a moved one. */
  lemma SyncReportsWrites(outdir: string, existing: map<Name, Version>, files: map<Name, File>,
                          missing: seq<(Name, Version)>, status: Status, p: string)
    ensures Wrote(status, p) in SyncEvents(outdir, existing, files, missing) <==>
      exists n :: n in files && (n !in existing || existing[n] != files[n].version)
        && status == (if n in existing then Force else Create) && p == Path(outdir, Target(files, n))
  {
    SyncReportsGem(outdir, existing, files, missing, Wrote(status, p));
    forall m | m in files
      ensures Wrote(status, p) in GemEvents(outdir, existing, files, m) <==>
        status == (if m in existing then Force else Create) && p == Path(outdir, Target(files, m))
    {
      WroteInGem(outdir, existing, files, m, status, p);
    }
  }

  /** A sync compiles exactly the wanted gems not on disk at their wanted
      version, and says which of them gave empty output. */
  lemma SyncReportsCompiles(outdir: string, existing: map<Name, Version>, files: map<Name, File>,
                            missing: seq<(Name, Version)>, n: Name, emptyOutput: bool)
    ensures Compiling(n, emptyOutput) in SyncEvents(outdir, existing, files, missing) <==>
      n in files && (n !in existing || existing[n] != files[n].version) && emptyOutput == files[n].emptyOutput
  {
    var e := Compiling(n, emptyOutput);
    SyncReportsGem(outdir, existing, files, missing, e);
    forall m | m in files
      ensures e in GemEvents(outdir, existing, files, m) <==> m == n && emptyOutput == files[m].emptyOutput
    {
      CompilingInGem(outdir, existing, files, m, e);
    }
  }

  lemma MovingInGem(outdir: string, existing: map<Name, Version>, files: map<Name, File>, m: Name,
                    from: string, to: string)
    requires m in files
    ensures Moving(from, to) in GemEvents(outdir, existing, files, m) <==>
      m in existing && from == Path(outdir, Filename(m, existing[m])) && to == Path(outdir, Target(files, m))
  {
    var g := GemEvents(outdir, existing, files, m);
    var to' := Path(outdir, Target(files, m));
    if m in existing {
      assert g == [Moving(Path(outdir, Filename(m, existing[m])), to'), Compiling(m, files[m].emptyOutput), Wrote(Force, to')];
    } else {
      assert g == [Compiling(m, files[m].emptyOutput), Wrote(Create, to')];
    }
  }

  lemma WroteInGem(outdir: string, existing: map<Name, Version>, files: map<Name, File>, m: Name,
                   status: Status, p: string)
    requires m in files
    ensures Wrote(status, p) in GemEvents(outdir, existing, files, m) <==>
      status == (if m in existing then Force else Create) && p == Path(outdir, Target(files, m))
  {
    var g := GemEvents(outdir, existing, files, m);
    var to := Path(outdir, Target(files, m));
    if m in existing {
      assert g == [Moving(Path(outdir, Filename(m, existing[m])), to), Compiling(m, files[m].emptyOutput), Wrote(Force, to)];
    } else {
      assert g == [Compiling(m, files[m].emptyOutput), Wrote(Create, to)];
    }
  }

  lemma CompilingInGem(outdir: string, existing: map<Name, Version>, files: map<Name, File>, m: Name, e: Event)
    requires m in files && e.Compiling?
    ensures e in GemEvents(outdir, existing, files, m) <==> e == Compiling(m, files[m].emptyOutput)
  {
    var g := GemEvents(outdir, existing, files, m);
    if m in existing {
      assert g[1] == Compiling(m, files[m].emptyOutput);
    } else {
      assert g[0] == Compiling(m, files[m].emptyOutput);
    }
  }

  /** Syncing a directory already in the wanted layout reports nothing but
      the two headings, each followed by "Nothing to do." */
  lemma QuietSync(outdir: string, dir: Dir, files: map<Name, File>, missing: seq<(Name, Version)>)
    requires Unambiguous(dir)
    requires Existing(dir) == Expected(files)
    ensures SyncLog(outdir, dir, files, missing) ==
      MissingLog(missing) + [RemovalHeading, Blank, NothingToDo] + [GenerationHeading, Blank, NothingToDo]
  {
    QuietEvents(outdir, Existing(dir), files, missing);
  }

  lemma QuietEvents(outdir: string, existing: map<Name, Version>, files: map<Name, File>,
                    missing: seq<(Name, Version)>)
    requires existing == Expected(files)
    ensures SyncEvents(outdir, existing, files, missing) ==
      MissingLog(missing) + [RemovalHeading, Blank, NothingToDo] + [GenerationHeading, Blank, NothingToDo]
  {
    var none: set<Name> := {};
    assert existing.Keys - Expected(files).Keys == none;
    assert Stale(existing, Expected(files)) == none;
    assert Ascending(none) == [];
    assert RemovalEvents(outdir, existing, []) == [];
    assert GenerationEvents(outdir, existing, files, []) == [];
  }

  /** Syncing a directory a sync has just produced reports nothing but the
      two headings, each followed by "Nothing to do." */
  lemma QuietResync(outdir: string, dir: Dir, files: map<Name, File>, missing: seq<(Name, Version)>)
    requires Unambiguous(dir) && ValidFiles(files)
    ensures Unambiguous(Synced(dir, files))
    ensures SyncLog(outdir, Synced(dir, files), files, missing) ==
      MissingLog(missing) + [RemovalHeading, Blank, NothingToDo] + [GenerationHeading, Blank, NothingToDo]
  {
    SyncedLayout(dir, files);
    QuietSync(outdir, Synced(dir, files), files, missing);
  }

  /** The events of generating gem `n` in a run that names its gems (or
      asks for all of them): the gem is announced, compiled and written,
      the file created when absent from `dir` and overwritten when present. */
  function GenerateGemEvents(outdir: string, dir: Dir, files: map<Name, File>, n: Name): seq<Event>
    requires n in files
  {
    var to := Target(files, n);
    [Processing(n), Compiling(n, files[n].emptyOutput), Wrote(if to in dir then Force else Create, Path(outdir, to))]
  }

  /** The events of generating the gems `names`, in order. */
  function GenerateEvents(outdir: string, dir: Dir, files: map<Name, File>, names: seq<Name>): seq<Event>
    requires forall n :: n in names ==> n in files
    decreases |names|
  {
    if names == [] then []
    else
      var n := names[|names| - 1];
      GenerateEvents(outdir, dir, files, names[..|names| - 1]) + GenerateGemEvents(outdir, dir, files, n)
  }

  lemma GenerateEventsStep(outdir: string, dir: Dir, files: map<Name, File>, names: seq<Name>, i: nat)
    requires forall n :: n in names ==> n in files
    requires i < |names|
    ensures GenerateEvents(outdir, dir, files, names[..i + 1])
         == GenerateEvents(outdir, dir, files, names[..i]) + GenerateGemEvents(outdir, dir, files, names[i])
  {
    assert names[..i + 1][..i] == names[..i];
  }

  /** A generation run reports exactly the events of each gem it writes. */
  lemma {:induction false} GenerateEventsAre(outdir: string, dir: Dir, files: map<Name, File>, names: seq<Name>)
    requires forall n :: n in names ==> n in files
    ensures forall e :: e in GenerateEvents(outdir, dir, files, names) <==>
      exists n :: n in names && e in GenerateGemEvents(outdir, dir, files, n)
    decreases |names|
  {
    if names != [] {
      var init := names[..|names| - 1];
      var n := names[|names| - 1];
      assert names == init + [n];
      assert forall m :: m in names <==> m in init || m == n;
      GenerateEventsAre(outdir, dir, files, init);
    }
  }

  /** A generation run announces exactly the gems it is given. */
  lemma GenerateReportsProcessing(outdir: string, dir: Dir, files: map<Name, File>, names: seq<Name>, n: Name)
    requires forall m :: m in names ==> m in files
    ensures Processing(n) in GenerateEvents(outdir, dir, files, names) <==> n in names
  {
    GenerateEventsAre(outdir, dir, files, names);
    if n in names {
      assert Processing(n) in GenerateGemEvents(outdir, dir, files, n);
    }
  }

  /** A generation run compiles exactly the gems it is given, and says which
      of them gave empty output. */
  lemma GenerateReportsCompiles(outdir: string, dir: Dir, files: map<Name, File>, names: seq<Name>,
                                n: Name, emptyOutput: bool)
    requires forall m :: m in names ==> m in files
    ensures Compiling(n, emptyOutput) in GenerateEvents(outdir, dir, files, names) <==>
      n in names && emptyOutput == files[n].emptyOutput
  {
    GenerateEventsAre(outdir, dir, files, names);
    if n in names && emptyOutput == files[n].emptyOutput {
      assert Compiling(n, emptyOutput) in GenerateGemEvents(outdir, dir, files, n);
    }
  }

  /** A generation run writes the file of each gem it is given: created when
      the directory lacks it, overwritten when it holds it. */
  lemma GenerateReportsWrites(outdir: string, dir: Dir, files: map<Name, File>, names: seq<Name>,
                              status: Status, p: string)
    requires forall m :: m in names ==> m in files
    ensures Wrote(status, p) in GenerateEvents(outdir, dir, files, names) <==>
      exists n :: n in names && p == Path(outdir, Target(files, n))
        && status == (if Target(files, n) in dir then Force else Create)
  {
    GenerateEventsAre(outdir, dir, files, names);
    forall n | n in names
      ensures Wrote(status, p) in GenerateGemEvents(outdir, dir, files, n) <==>
        p == Path(outdir, Target(files, n)) && status == (if Target(files, n) in dir then Force else Create)
    {
    }
  }
}
