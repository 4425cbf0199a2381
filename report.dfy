/** The verify reporter: the same comparison as a sync, rendered as a report
    and an exit status instead of being carried out. */
module Reporter {
  import opened Ordering
  import opened Identity
  import opened Reconciler
  import opened Log

  /** The printed lines and the exit status of a verify run. */
  datatype Report = Report(lines: seq<string>, exit: int)

  const Checking: string := "Checking for out-of-date RBIs..."
  const AllUpToDate: string := "Nothing to do, all RBIs are up-to-date."
  const OutOfDate: string := "RBI files are out-of-date. In your development environment, please run:"
  const RunSync: string := "  `bin/tapioca gem`"
  const CommitAdvice: string := "Once it is complete, be sure to commit and push any changes"
  const ReasonTitle: string := "Reason:"
  const AddedTitle: string := "  File(s) added:"
  const ChangedTitle: string := "  File(s) changed:"
  const RemovedTitle: string := "  File(s) removed:"
  const BulletLead: string := "  - "

  /** What every report of drift starts with. */
  const Preamble: seq<string> := [Checking, "", OutOfDate, RunSync, CommitAdvice, "", ReasonTitle]

  /** The report line listing the file of gem `n` at version `v`. */
  function Bullet(outdir: string, n: Name, v: Version): string {
    BulletLead + Path(outdir, Filename(n, v))
  }

  /** The lines listing the files of the gems `names`, in order. */
  function Bullets(outdir: string, versions: map<Name, Version>, names: seq<Name>): (r: seq<string>)
    requires forall n :: n in names ==> n in versions
    ensures |r| == |names|
    ensures forall k :: 0 <= k < |names| ==> r[k] == Bullet(outdir, names[k], versions[names[k]])
    decreases |names|
  {
    if names == [] then []
    else [Bullet(outdir, names[0], versions[names[0]])] + Bullets(outdir, versions, names[1..])
  }

  /** A subsection: its title and its lines, left out when it lists nothing. */
  function Section(title: string, bullets: seq<string>): seq<string> {
    if bullets == [] then [] else [title] + bullets
  }

  /** The reason block: added, changed and removed files, in this order,
      each subsection in name order. A changed gem is listed at the file
      name of its expected version, a removed one at its file on disk. */
  function Reasons(outdir: string, existing: map<Name, Version>, expected: map<Name, Version>): seq<string> {
    var plan := Reconcile(existing, expected);
    Section(AddedTitle, Bullets(outdir, expected, plan.added))
      + Section(ChangedTitle, Bullets(outdir, expected, plan.changed))
      + Section(RemovedTitle, Bullets(outdir, existing, plan.removed))
  }

  /** The verify report of the directory's gems `existing` against the
      versions the bundle expects. It changes nothing: it is a value. */
  function VerifyReport(outdir: string, existing: map<Name, Version>, expected: map<Name, Version>): (r: Report)
    ensures r.exit == 0 || r.exit == 1
    ensures r.exit == 0 <==> existing == expected
    ensures r.exit == 0 ==> r.lines == [Checking, "", AllUpToDate]
    ensures r.exit == 1 ==> r.lines == Preamble + Reasons(outdir, existing, expected)
  {
    var plan := Reconcile(existing, expected);
    if plan.UpToDate() then Report([Checking, "", AllUpToDate], 0)
    else
      var reasons := Reasons(outdir, existing, expected);
      assert reasons != [] by {
        HasHead(plan.added);
        HasHead(plan.changed);
        HasHead(plan.removed);
      }
      Report(Preamble + reasons, 1)
  }

  /** The gem `n` at version `v` is drift the report must list: an added or
      changed gem at its expected version, or a removed gem at the version
      on disk. */
  predicate Drift(existing: map<Name, Version>, expected: map<Name, Version>, n: Name, v: Version) {
    || (n in expected && v == expected[n] && (n !in existing || existing[n] != v))
    || (n in existing && n !in expected && v == existing[n])
  }

  lemma BulletShape(outdir: string, n: Name, v: Version)
    ensures |Bullet(outdir, n, v)| > 3 && Bullet(outdir, n, v)[..4] == BulletLead
  {
  }

  lemma BulletInjective(outdir: string, n: Name, v: Version, m: Name, w: Version)
    requires ValidName(n) && ValidName(m)
    ensures Bullet(outdir, n, v) == Bullet(outdir, m, w) <==> n == m && v == w
  {
    var lead := BulletLead + outdir + "/";
    assert Bullet(outdir, n, v) == lead + Filename(n, v);
    assert Bullet(outdir, m, w) == lead + Filename(m, w);
    if Bullet(outdir, n, v) == Bullet(outdir, m, w) {
      assert Filename(n, v) == (lead + Filename(n, v))[|lead|..];
      assert Filename(m, w) == (lead + Filename(m, w))[|lead|..];
    }
    FilenameInjective(n, v, m, w);
  }

  /** The line of gem `n` at `v` is among the lines of `names` exactly when
      `n` is one of them at its listed version. */
  lemma BulletIn(outdir: string, versions: map<Name, Version>, names: seq<Name>, n: Name, v: Version)
    requires forall m :: m in names ==> m in versions && ValidName(m)
    requires ValidName(n)
    ensures Bullet(outdir, n, v) in Bullets(outdir, versions, names) <==> n in names && v == versions[n]
  {
    var bs := Bullets(outdir, versions, names);
    if Bullet(outdir, n, v) in bs {
      var k :| 0 <= k < |bs| && bs[k] == Bullet(outdir, n, v);
      BulletInjective(outdir, n, v, names[k], versions[names[k]]);
    }
    if n in names && v == versions[n] {
      var k :| 0 <= k < |names| && names[k] == n;
      assert bs[k] == Bullet(outdir, n, v);
    }
  }

  /** No subsection title reads as a file line. */
  lemma BulletIsNoTitle(outdir: string, n: Name, v: Version)
    ensures Bullet(outdir, n, v) != AddedTitle
    ensures Bullet(outdir, n, v) != ChangedTitle
    ensures Bullet(outdir, n, v) != RemovedTitle
  {
    BulletShape(outdir, n, v);
    var b := Bullet(outdir, n, v);
    assert b[2] == '-';
    assert AddedTitle[2] == 'F' && ChangedTitle[2] == 'F' && RemovedTitle[2] == 'F';
  }

  lemma InSection(title: string, bullets: seq<string>, b: string)
    requires b != title
    ensures b in Section(title, bullets) <==> b in bullets
  {
  }

  /** The reason block of a verify report lists the file of every drifted
      gem, and lists no other file. */
  lemma ReasonsListDrift(outdir: string, existing: map<Name, Version>,
                         expected: map<Name, Version>, n: Name, v: Version)
    requires forall m :: m in existing ==> ValidName(m)
    requires forall m :: m in expected ==> ValidName(m)
    requires ValidName(n)
    ensures Bullet(outdir, n, v) in Reasons(outdir, existing, expected) <==> Drift(existing, expected, n, v)
  {
    var plan := Reconcile(existing, expected);
    var b := Bullet(outdir, n, v);
    BulletIsNoTitle(outdir, n, v);
    var ba := Bullets(outdir, expected, plan.added);
    var bc := Bullets(outdir, expected, plan.changed);
    var bd := Bullets(outdir, existing, plan.removed);
    BulletIn(outdir, expected, plan.added, n, v);
    BulletIn(outdir, expected, plan.changed, n, v);
    BulletIn(outdir, existing, plan.removed, n, v);
    InSection(AddedTitle, ba, b);
    InSection(ChangedTitle, bc, b);
    InSection(RemovedTitle, bd, b);
  }
}
