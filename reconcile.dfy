/** The reconciler: what is on disk, what should be, and how the two differ.
    The output directory is a map from file name to file text. */
module Reconciler {
  import opened Wrappers
  import opened Ordering
  import opened Identity
  import opened Builder

  type Dir = map<string, string>

  /** At most one gem RBI per gem name: the scanner's input contract. */
  predicate Unambiguous(dir: Dir) {
    forall f, g ::
      (f in dir && g in dir && Parse(f).Some? && Parse(g).Some? && Parse(f).value.0 == Parse(g).value.0)
      ==> f == g
  }

  /** The gems on disk: every gem RBI of the directory, read back as
      name and version. Other files are not gem RBIs and are ignored. */
  function Existing(dir: Dir): (e: map<Name, Version>)
    requires Unambiguous(dir)
    ensures forall f :: f in dir && Parse(f).Some? ==>
      Parse(f).value.0 in e && e[Parse(f).value.0] == Parse(f).value.1
    ensures forall n :: n in e ==> ValidName(n) && Filename(n, e[n]) in dir
  {
    map f | f in dir && Parse(f).Some? :: Parse(f).value.0 := Parse(f).value.1
  }

  /** The difference between the gems on disk and the gems expected, each
      list in ascending name order. A gem whose version differs is `changed`:
      sync moves its file, verify reports it under its new name. */
  datatype Plan = Plan(added: seq<Name>, changed: seq<Name>, removed: seq<Name>) {
    predicate UpToDate() {
      added == [] && changed == [] && removed == []
    }
  }

  function ChangedNames(existing: map<Name, Version>, expected: map<Name, Version>): set<Name> {
    set n | n in existing && n in expected && existing[n] != expected[n]
  }

  function Reconcile(existing: map<Name, Version>, expected: map<Name, Version>): (p: Plan)
    ensures StrictlySorted(p.added) && StrictlySorted(p.changed) && StrictlySorted(p.removed)
    ensures forall n :: n in p.added <==> n in expected && n !in existing
    ensures forall n :: n in p.changed <==> n in expected && n in existing && existing[n] != expected[n]
    ensures forall n :: n in p.removed <==> n in existing && n !in expected
    ensures p.UpToDate() <==> existing == expected
  {
    var p := Plan(Ascending(expected.Keys - existing.Keys),
                  Ascending(ChangedNames(existing, expected)),
                  Ascending(existing.Keys - expected.Keys));
    NoDifferenceMeansEqual(existing, expected, p);
    p
  }

  lemma NoDifferenceMeansEqual(existing: map<Name, Version>, expected: map<Name, Version>, p: Plan)
    requires forall n :: n in p.added <==> n in expected && n !in existing
    requires forall n :: n in p.changed <==> n in expected && n in existing && existing[n] != expected[n]
    requires forall n :: n in p.removed <==> n in existing && n !in expected
    ensures p.UpToDate() <==> existing == expected
  {
    if existing == expected {
      HasHead(p.added);
      HasHead(p.changed);
      HasHead(p.removed);
    }
    if p.UpToDate() {
      assert existing.Keys == expected.Keys by {
        forall n ensures n in existing <==> n in expected {
          assert n !in p.added && n !in p.removed;
        }
      }
      forall n | n in existing ensures existing[n] == expected[n] {
        assert n !in p.changed;
      }
    }
  }

  /** The names the generation phase writes: expected gems not on disk at
      their expected version (added or changed). */
  function Stale(existing: map<Name, Version>, expected: map<Name, Version>): (s: set<Name>)
    ensures forall n :: n in s <==> n in expected && (n !in existing || existing[n] != expected[n])
  {
    set n | n in expected && (n !in existing || existing[n] != expected[n])
  }

  /** The version each wanted file is written at. */
  function Expected(files: map<Name, File>): (e: map<Name, Version>)
    ensures e.Keys == files.Keys
    ensures forall n :: n in e ==> e[n] == files[n].version
  {
    map n | n in files :: files[n].version
  }

  /** The file name of the wanted file of gem `n`. */
  function Target(files: map<Name, File>, n: Name): string
    requires n in files
  {
    Filename(n, files[n].version)
  }

  /** `f` is the name of one of the wanted files. */
  predicate IsTarget(files: map<Name, File>, f: string) {
    match Parse(f)
    case None => false
    case Some((n, v)) => n in files && files[n].version == v
  }

  predicate ValidFiles(files: map<Name, File>) {
    forall n :: n in files ==> ValidName(n)
  }

  /** The removal phase: the files of `removed` deleted. */
  function Prune(dir: Dir, existing: map<Name, Version>, removed: seq<Name>): Dir
    requires forall n :: n in removed ==> n in existing
  {
    dir - set n | n in removed :: Filename(n, existing[n])
  }

  /** Deleting the files of a list one gem more deletes that gem's file more. */
  lemma PruneStep(dir: Dir, existing: map<Name, Version>, removed: seq<Name>, i: nat)
    requires forall n :: n in removed ==> n in existing
    requires i < |removed|
    ensures Prune(dir, existing, removed[..i + 1])
         == Prune(dir, existing, removed[..i]) - {Filename(removed[i], existing[removed[i]])}
  {
    assert forall n :: n in removed[..i + 1] <==> n in removed[..i] || n == removed[i];
    var gone := set n | n in removed[..i + 1] :: Filename(n, existing[n]);
    var before := set n | n in removed[..i] :: Filename(n, existing[n]);
    assert gone == before + {Filename(removed[i], existing[removed[i]])};
  }

  /** The generation phase, gem by gem: a changed gem's file is renamed to
      its new name, and the new file receives the freshly built text. */
  function Regenerate(dir: Dir, existing: map<Name, Version>, files: map<Name, File>,
                      names: seq<Name>): Dir
    requires forall n :: n in names ==> n in files
    decreases |names|
  {
    if names == [] then dir
    else
      var n := names[|names| - 1];
      var before := Regenerate(dir, existing, files, names[..|names| - 1]);
      var renamed := if n in existing then before - {Filename(n, existing[n])} else before;
      renamed[Target(files, n) := files[n].text]
  }

  /** One more gem of the generation phase: its old file renamed away, its
      new file written. */
  lemma RegenerateStep(dir: Dir, existing: map<Name, Version>, files: map<Name, File>,
                       names: seq<Name>, i: nat)
    requires forall n :: n in names ==> n in files
    requires i < |names|
    ensures var before := Regenerate(dir, existing, files, names[..i]);
      var n := names[i];
      Regenerate(dir, existing, files, names[..i + 1])
        == (if n in existing then before - {Filename(n, existing[n])} else before)[Target(files, n) := files[n].text]
  {
    assert names[..i + 1][..i] == names[..i];
  }

  /** The files the generation phase still has to move are not touched by
      the gem it handles now: gems are distinct, and so are their files. */
  lemma LaterSourcesUntouched(existing: map<Name, Version>, files: map<Name, File>,
                              names: seq<Name>, i: nat, k: nat)
    requires forall n :: n in names ==> n in files
    requires ValidFiles(files)
    requires StrictlySorted(names)
    requires i < k < |names| && names[k] in existing
    ensures Filename(names[k], existing[names[k]]) != Target(files, names[i])
    ensures names[i] in existing ==> Filename(names[k], existing[names[k]]) != Filename(names[i], existing[names[i]])
  {
    LessIrreflexive(names[i]);
    FilenameInjective(names[k], existing[names[k]], names[i], files[names[i]].version);
    if names[i] in existing {
      FilenameInjective(names[k], existing[names[k]], names[i], existing[names[i]]);
    }
  }

  /** Distinct gems are written to distinct files. */
  lemma LaterTargetsDistinct(files: map<Name, File>, names: seq<Name>, i: nat, k: nat)
    requires forall n :: n in names ==> n in files
    requires ValidFiles(files)
    requires StrictlySorted(names)
    requires i < k < |names|
    ensures Target(files, names[k]) != Target(files, names[i])
  {
    LessIrreflexive(names[i]);
    FilenameInjective(names[k], files[names[k]].version, names[i], files[names[i]].version);
  }

  /** The directory after a sync: the removal phase, then the generation
      phase over the stale gems in name order. */
  function Synced(dir: Dir, files: map<Name, File>): Dir
    requires Unambiguous(dir)
  {
    var existing := Existing(dir);
    var expected := Expected(files);
    Regenerate(Prune(dir, existing, Ascending(existing.Keys - expected.Keys)),
               existing, files, Ascending(Stale(existing, expected)))
  }

  /** `f` is the new file of one of the gems `names`. */
  predicate WrittenBy(files: map<Name, File>, names: seq<Name>, f: string) {
    match Parse(f)
    case None => false
    case Some((m, v)) => m in names && m in files && files[m].version == v
  }

  /** `f` is the old file of one of the gems `names`, renamed away. */
  predicate RenamedAway(existing: map<Name, Version>, names: seq<Name>, f: string) {
    match Parse(f)
    case None => false
    case Some((m, v)) => m in names && m in existing && existing[m] == v
  }

  /** One step of the generation phase, seen from one file `f`: writing gem
      `n` after the gems `init` keeps what the earlier steps established. */
  lemma RegenerateStepAt(dir: Dir, existing: map<Name, Version>, files: map<Name, File>,
                         init: seq<Name>, n: Name, f: string)
    requires forall m :: m in init ==> m in files
    requires n in files && ValidFiles(files)
    requires var before := Regenerate(dir, existing, files, init);
      && (f in before <==> (f in dir && !RenamedAway(existing, init, f)) || WrittenBy(files, init, f))
      && (f in before && !WrittenBy(files, init, f) ==> before[f] == dir[f])
    ensures var r := Regenerate(dir, existing, files, init + [n]);
      && (f in r <==> (f in dir && !RenamedAway(existing, init + [n], f)) || WrittenBy(files, init + [n], f))
      && (f in r && !WrittenBy(files, init + [n], f) ==> r[f] == dir[f])
  {
    var names := init + [n];
    assert names[..|names| - 1] == init;
    assert forall m :: m in names <==> m in init || m == n;
    var t := Target(files, n);
    ParseFilename(n, files[n].version);
    if n in existing {
      ParseFilename(n, existing[n]);
    }
    match Parse(f)
    case None =>
      assert f != t;
    case Some((m, v)) =>
      assert f == Filename(m, v);
      assert f == t <==> m == n && files[n].version == v;
      assert WrittenBy(files, names, f) <==> WrittenBy(files, init, f) || f == t;
      assert RenamedAway(existing, names, f) <==>
        RenamedAway(existing, init, f) || (n in existing && f == Filename(n, existing[n]));
  }

  /** What the generation phase leaves: the old files of the regenerated
      gems are gone, their new files are there, and every file not written
      is as it was. */
  lemma {:induction false} RegenerateAt(dir: Dir, existing: map<Name, Version>,
                                        files: map<Name, File>, names: seq<Name>)
    requires forall n :: n in names ==> n in files
    requires ValidFiles(files)
    ensures var r := Regenerate(dir, existing, files, names);
      forall f :: f in r <==> (f in dir && !RenamedAway(existing, names, f)) || WrittenBy(files, names, f)
    ensures var r := Regenerate(dir, existing, files, names);
      forall f :: f in r && !WrittenBy(files, names, f) ==> r[f] == dir[f]
    decreases |names|
  {
    if names != [] {
      var init := names[..|names| - 1];
      var n := names[|names| - 1];
      assert names == init + [n];
      assert forall m :: m in init ==> m in names;
      RegenerateAt(dir, existing, files, init);
      forall f
        ensures var r := Regenerate(dir, existing, files, names);
          && (f in r <==> (f in dir && !RenamedAway(existing, names, f)) || WrittenBy(files, names, f))
          && (f in r && !WrittenBy(files, names, f) ==> r[f] == dir[f])
      {
        RegenerateStepAt(dir, existing, files, init, n, f);
      }
    }
  }

  /** After the generation phase over distinct gems, the new file of each
      of them holds its wanted text. */
  lemma {:induction false} RegenerateWrites(dir: Dir, existing: map<Name, Version>,
                                            files: map<Name, File>, names: seq<Name>)
    requires forall n :: n in names ==> n in files
    requires ValidFiles(files)
    requires StrictlySorted(names)
    ensures var r := Regenerate(dir, existing, files, names);
      forall n :: n in names ==> Target(files, n) in r && r[Target(files, n)] == files[n].text
    decreases |names|
  {
    if names != [] {
      var init := names[..|names| - 1];
      var n := names[|names| - 1];
      assert names == init + [n];
      assert forall m :: m in names <==> m in init || m == n;
      assert StrictlySorted(init);
      RegenerateWrites(dir, existing, files, init);
      var before := Regenerate(dir, existing, files, init);
      var renamed := if n in existing then before - {Filename(n, existing[n])} else before;
      var r := renamed[Target(files, n) := files[n].text];
      assert r == Regenerate(dir, existing, files, names);
      forall m | m in init
        ensures Target(files, m) in r && r[Target(files, m)] == files[m].text
      {
        var k :| 0 <= k < |init| && init[k] == m;
        assert names[k] == m && names[|names| - 1] == n;
        if m == n {
          LessIrreflexive(n);
        }
        FilenameInjective(m, files[m].version, n, files[n].version);
        if n in existing {
          FilenameInjective(m, files[m].version, n, existing[n]);
        }
      }
    }
  }

  /** The removal phase deletes exactly the gem RBIs of gems no longer
      wanted, and nothing else. */
  lemma PruneRemovesUnwanted(dir: Dir, files: map<Name, File>)
    requires Unambiguous(dir)
    ensures var existing := Existing(dir);
      var mid := Prune(dir, existing, Ascending(existing.Keys - Expected(files).Keys));
      forall f :: f in mid <==> f in dir && (Parse(f).None? || Parse(f).value.0 in files)
  {
    var existing := Existing(dir);
    var removed := Ascending(existing.Keys - Expected(files).Keys);
    var gone := set n | n in removed :: Filename(n, existing[n]);
    var mid := Prune(dir, existing, removed);
    assert mid == dir - gone;
    assert forall n :: n in removed <==> n in existing && n !in files;
    forall f
      ensures f in mid <==> f in dir && (Parse(f).None? || Parse(f).value.0 in files)
    {
      if f in dir {
        PrunedAt(existing, files, removed, gone, f);
      }
    }
  }

  /** Whether the removal phase deletes file `f` of the directory. */
  lemma PrunedAt(existing: map<Name, Version>, files: map<Name, File>, removed: seq<Name>,
                 gone: set<string>, f: string)
    requires forall n :: n in removed <==> n in existing && n !in files
    requires forall n :: n in existing ==> ValidName(n)
    requires gone == set n | n in removed :: Filename(n, existing[n])
    requires Parse(f).Some? ==> Parse(f).value.0 in existing && existing[Parse(f).value.0] == Parse(f).value.1
    ensures f in gone <==> Parse(f).Some? && Parse(f).value.0 !in files
  {
    if f in gone {
      var m :| m in removed && f == Filename(m, existing[m]);
      ParseFilename(m, existing[m]);
    }
    if Parse(f).Some? && Parse(f).value.0 !in files {
      var m := Parse(f).value.0;
      assert m in removed && f == Filename(m, existing[m]);
    }
  }

  /** What a sync leaves in the directory: every file that is not a gem RBI
      untouched; as gem RBIs exactly the wanted files; and a file already on
      disk at its wanted version kept as it is. */
  lemma SyncedContents(dir: Dir, files: map<Name, File>)
    requires Unambiguous(dir) && ValidFiles(files)
    ensures forall f :: f in Synced(dir, files) <==> (f in dir && Parse(f).None?) || IsTarget(files, f)
    ensures forall f :: f in Synced(dir, files) && f in dir ==> Synced(dir, files)[f] == dir[f]
  {
    var existing := Existing(dir);
    var expected := Expected(files);
    var stale := Ascending(Stale(existing, expected));
    var mid := Prune(dir, existing, Ascending(existing.Keys - expected.Keys));
    var r := Synced(dir, files);
    PruneRemovesUnwanted(dir, files);
    RegenerateAt(mid, existing, files, stale);
    forall f
      ensures f in r <==> (f in dir && Parse(f).None?) || IsTarget(files, f)
      ensures f in r && f in dir ==> r[f] == dir[f]
    {
      assert f in mid ==> mid[f] == dir[f];
      SyncedFileAt(dir, existing, files, mid, stale, r, f);
    }
  }

  /** One file of the directory after a sync, given what each phase does
      to it. */
  lemma SyncedFileAt(dir: Dir, existing: map<Name, Version>, files: map<Name, File>,
                     mid: Dir, stale: seq<Name>, r: Dir, f: string)
    requires ValidFiles(files)
    requires forall n :: n in stale <==> n in files && (n !in existing || existing[n] != files[n].version)
    requires forall n :: n in existing ==> Filename(n, existing[n]) in dir
    requires f in dir && Parse(f).Some? ==>
      Parse(f).value.0 in existing && existing[Parse(f).value.0] == Parse(f).value.1
    requires f in mid <==> f in dir && (Parse(f).None? || Parse(f).value.0 in files)
    requires f in mid ==> mid[f] == dir[f]
    requires f in r <==> (f in mid && !RenamedAway(existing, stale, f)) || WrittenBy(files, stale, f)
    requires f in r && !WrittenBy(files, stale, f) ==> r[f] == mid[f]
    ensures f in r <==> (f in dir && Parse(f).None?) || IsTarget(files, f)
    ensures f in r && f in dir ==> r[f] == dir[f]
  {
    match Parse(f)
    case None =>
    case Some((m, v)) =>
      if IsTarget(files, f) && m !in stale {
        assert f == Filename(m, existing[m]);
      }
  }

  /** After a sync, every wanted file that was not already on disk holds its
      wanted text. */
  lemma SyncedWrites(dir: Dir, files: map<Name, File>)
    requires Unambiguous(dir) && ValidFiles(files)
    ensures forall n :: n in files && Target(files, n) !in dir ==>
      Target(files, n) in Synced(dir, files) && Synced(dir, files)[Target(files, n)] == files[n].text
  {
    var existing := Existing(dir);
    var expected := Expected(files);
    var stale := Ascending(Stale(existing, expected));
    var mid := Prune(dir, existing, Ascending(existing.Keys - expected.Keys));
    RegenerateWrites(mid, existing, files, stale);
    assert forall n :: n in files && Target(files, n) !in dir ==> n in stale;
  }

  /** A directory whose gem RBIs are exactly the wanted files holds one
      gem RBI per wanted gem, at its wanted version. */
  lemma LayoutOfTargets(r: Dir, files: map<Name, File>)
    requires ValidFiles(files)
    requires forall f :: f in r && Parse(f).Some? <==> IsTarget(files, f)
    ensures Unambiguous(r)
    ensures Existing(r) == Expected(files)
  {
    assert Unambiguous(r);
    var e := Existing(r);
    forall n | n in files
      ensures n in e && e[n] == files[n].version
    {
      ParseFilename(n, files[n].version);
      assert IsTarget(files, Target(files, n));
    }
    forall n | n in e
      ensures n in files
    {
      ParseFilename(n, e[n]);
    }
  }

  /** After a sync the directory holds, for each wanted gem, exactly one
      gem RBI, at the wanted version, and no other gem RBI. */
  lemma SyncedLayout(dir: Dir, files: map<Name, File>)
    requires Unambiguous(dir) && ValidFiles(files)
    ensures Unambiguous(Synced(dir, files))
    ensures Existing(Synced(dir, files)) == Expected(files)
  {
    SyncedContents(dir, files);
    var r := Synced(dir, files);
    forall f
      ensures f in r && Parse(f).Some? <==> IsTarget(files, f)
    {
    }
    LayoutOfTargets(r, files);
  }

  /** A directory already in the wanted layout is left as it is by a sync. */
  lemma SyncOfLayoutIsIdentity(r: Dir, files: map<Name, File>)
    requires Unambiguous(r)
    requires Existing(r) == Expected(files)
    ensures Synced(r, files) == r
  {
    var existing := Existing(r);
    var expected := Expected(files);
    assert existing.Keys - expected.Keys == {};
    assert Stale(existing, expected) == {};
    assert Prune(r, existing, []) == r;
  }

  /** A second sync against the same wanted files changes nothing. */
  lemma SyncIdempotent(dir: Dir, files: map<Name, File>)
    requires Unambiguous(dir) && ValidFiles(files)
    ensures Unambiguous(Synced(dir, files))
    ensures Synced(Synced(dir, files), files) == Synced(dir, files)
  {
    SyncedLayout(dir, files);
    SyncOfLayoutIsIdentity(Synced(dir, files), files);
  }
}
