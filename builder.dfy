/** The expected-set builder: which gems a run targets, and what the RBI
    compiler gives for each of them. The compiler itself (runtime
    introspection of a loaded gem) is an oracle: the bundle records, per gem,
    the version it resolves to and the outcome of compiling it. */
module Builder {
  import opened Wrappers
  import opened Identity

  /** What compiling one gem yields. */
  datatype Outcome =
    | Content(rbi: string)      // the compiled RBI body
    | Empty                     // the gem exports nothing
    | MissingSpec               // the gem's spec is not installed: skipped
    | Fatal(message: string)    // loading the gems failed: the run stops

  datatype Gem = Gem(version: Version, outcome: Outcome)

  /** The gems of the application, by name. */
  type Bundle = map<Name, Gem>

  predicate ValidBundle(bundle: Bundle) {
    forall n :: n in bundle ==> ValidName(n)
  }

  /** The gems asked for: every gem of the bundle, or the names given. */
  datatype Scope = All | Only(names: set<Name>)

  /** The names a run processes: those asked for that the bundle has,
      less the excluded ones. */
  function Targets(bundle: Bundle, scope: Scope, exclude: set<Name>): (t: set<Name>)
    ensures forall n :: n in t <==> n in bundle && n !in exclude && (scope.All? || n in scope.names)
  {
    (match scope
     case All => bundle.Keys
     case Only(names) => names * bundle.Keys) - exclude
  }

  /** What is written for a gem: its compiled body, or the fixed placeholder
      when the compiler found nothing to export. */
  datatype Body = Rbi(text: string) | Placeholder

  datatype Artifact = Artifact(version: Version, body: Body)

  /** The result of building: the artifacts by name, and the gems skipped
      for a missing spec, with their versions, in processing order. */
  datatype Built = Built(artifacts: map<Name, Artifact>, missing: seq<(Name, Version)>)

  /** Compiles the gems `names` in order. The first gem whose compilation is
      fatal stops the build with its message; a gem with a missing spec is
      set aside and gets no artifact; an empty output gets the placeholder. */
  function Build(bundle: Bundle, names: seq<Name>): (r: Result<Built, string>)
    requires forall k :: 0 <= k < |names| ==> names[k] in bundle
    ensures r.Failure? <==> exists k :: 0 <= k < |names| && bundle[names[k]].outcome.Fatal?
    ensures r.Failure? ==>
      exists k :: 0 <= k < |names| && bundle[names[k]].outcome == Fatal(r.error)
        && forall j :: 0 <= j < k ==> !bundle[names[j]].outcome.Fatal?
    ensures r.Success? ==>
      forall n :: n in r.value.artifacts <==> n in names && !bundle[n].outcome.MissingSpec?
    ensures r.Success? ==>
      forall n :: n in r.value.artifacts ==>
        && r.value.artifacts[n].version == bundle[n].version
        && (r.value.artifacts[n].body == Placeholder <==> bundle[n].outcome == Empty)
        && (bundle[n].outcome.Content? ==> r.value.artifacts[n].body == Rbi(bundle[n].outcome.rbi))
    ensures r.Success? ==>
      forall n, v :: (n, v) in r.value.missing <==>
        n in names && bundle[n].outcome == MissingSpec && v == bundle[n].version
    decreases |names|
  {
    if names == [] then Success(Built(map[], []))
    else
      var n := names[0];
      var gem := bundle[n];
      if gem.outcome.Fatal? then Failure(gem.outcome.message)
      else
        match Build(bundle, names[1..])
        case Failure(e) => Failure(e)
        case Success(rest) =>
          match gem.outcome
          case MissingSpec => Success(rest.(missing := [(n, gem.version)] + rest.missing))
          case Empty => Success(rest.(artifacts := rest.artifacts[n := Artifact(gem.version, Placeholder)]))
          case Content(text) => Success(rest.(artifacts := rest.artifacts[n := Artifact(gem.version, Rbi(text))]))
  }

  /** The versions a run expects on disk, read from the bundle without
      compiling anything: every non-excluded gem whose spec is installed. */
  function ExpectedVersions(bundle: Bundle, exclude: set<Name>): (e: map<Name, Version>)
    ensures forall n :: n in e <==> n in bundle && n !in exclude && bundle[n].outcome != MissingSpec
  {
    map n | n in bundle && n !in exclude && bundle[n].outcome != MissingSpec :: bundle[n].version
  }

  /** The version each artifact is written at. */
  function Versions(artifacts: map<Name, Artifact>): (e: map<Name, Version>)
    ensures e.Keys == artifacts.Keys
  {
    map n | n in artifacts :: artifacts[n].version
  }

  /** A build over every target yields exactly the versions the bundle
      expects, so sync and verify compare the directory with the same set. */
  lemma BuiltVersionsAreExpected(bundle: Bundle, names: seq<Name>, exclude: set<Name>)
    requires forall n :: n in names <==> n in Targets(bundle, All, exclude)
    requires Build(bundle, names).Success?
    ensures Versions(Build(bundle, names).value.artifacts) == ExpectedVersions(bundle, exclude)
  {
    var arts := Build(bundle, names).value.artifacts;
    assert forall n :: n in names <==> n in bundle && n !in exclude;
    assert Versions(arts).Keys == ExpectedVersions(bundle, exclude).Keys;
  }

  /** The banner every generated file starts with. */
  function Header(name: Name): string {
    HeaderLead + name + HeaderMid + name + HeaderTail
  }

  const HeaderLead: string :=
    "# typed: true\n\n# DO NOT EDIT MANUALLY\n# This is an autogenerated file for types exported from the `"
  const HeaderMid: string := "` gem.\n# Please instead update this file by running `bin/tapioca gem "
  const HeaderTail: string := "`.\n\n"

  /** The body of the file of a gem that exports nothing. */
  const EmptyBody: string :=
    "# THIS IS AN EMPTY RBI FILE.\n# see https://github.com/Shopify/tapioca/wiki/Manual-Gem-Requires\n"

  /** The full text of the file written for gem `name`. */
  function Text(name: Name, artifact: Artifact): string {
    Header(name) + match artifact.body
      case Rbi(text) => text
      case Placeholder => EmptyBody
  }

  /** A file to be written for a gem: the version in its name, its text,
      and whether the compiler found nothing to export. */
  datatype File = File(version: Version, text: string, emptyOutput: bool)

  /** The files a build asks for, one per artifact. */
  function Files(artifacts: map<Name, Artifact>): (r: map<Name, File>)
    ensures r.Keys == artifacts.Keys
    ensures forall n :: n in r ==>
      && r[n].version == artifacts[n].version
      && r[n].text == Text(n, artifacts[n])
      && (r[n].emptyOutput <==> artifacts[n].body == Placeholder)
  {
    map n | n in artifacts :: File(artifacts[n].version, Text(n, artifacts[n]), artifacts[n].body == Placeholder)
  }
}
