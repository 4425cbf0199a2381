/** The identity of a gem RBI file: `<name>@<version>.rbi`. The name is the
    gem's name, which never holds an `@`; the version is an opaque token
    (`0.3.0`, or `2.4.1-<git sha>` for a gem taken from git) that is only ever
    compared for equality. */
module Identity {
  import opened Wrappers

  type Name = string
  type Version = string

  const Extension: string := ".rbi"

  /** Gem names never contain the separator. */
  predicate ValidName(n: Name) {
    '@' !in n
  }

  /** The file name of the RBI of gem `name` at `version`. */
  function Filename(name: Name, version: Version): string {
    name + "@" + version + Extension
  }

  /** The position of the first `@` in `s`, if any. */
  function FirstAt(s: string): (r: Option<nat>)
    ensures r.Some? ==> r.value < |s| && s[r.value] == '@' && '@' !in s[..r.value]
    ensures r.None? ==> '@' !in s
  {
    if s == [] then None
    else if s[0] == '@' then Some(0)
    else match FirstAt(s[1..])
      case None => None
      case Some(i) =>
        assert s[..i + 1] == [s[0]] + s[1..][..i];
        Some(i + 1)
  }

  /** Reads a file name of the output directory back as (name, version):
      the name is everything before the first `@`, the version everything
      between it and the `.rbi` extension. Any other file is not a gem RBI. */
  function Parse(file: string): (r: Option<(Name, Version)>)
    ensures r.Some? ==> ValidName(r.value.0) && file == Filename(r.value.0, r.value.1)
  {
    if |file| < |Extension| || file[|file| - |Extension|..] != Extension then None
    else
      var stem := file[..|file| - |Extension|];
      match FirstAt(stem)
      case None => None
      case Some(i) =>
        assert stem == stem[..i] + "@" + stem[i + 1..];
        assert file == stem + Extension;
        Some((stem[..i], stem[i + 1..]))
  }

  lemma {:induction false} FirstAtOfFilename(name: Name, rest: string)
    requires ValidName(name)
    ensures FirstAt(name + "@" + rest) == Some(|name|)
    decreases |name|
  {
    if name != [] {
      assert (name + "@" + rest)[1..] == name[1..] + "@" + rest;
      FirstAtOfFilename(name[1..], rest);
    }
  }

  /** Parsing the file name of a gem RBI gives back its name and version. */
  lemma ParseFilename(name: Name, version: Version)
    requires ValidName(name)
    ensures Parse(Filename(name, version)) == Some((name, version))
  {
    var file := Filename(name, version);
    var stem := name + "@" + version;
    assert file[|file| - |Extension|..] == Extension;
    assert file[..|file| - |Extension|] == stem;
    FirstAtOfFilename(name, version);
    assert stem[..|name|] == name;
    assert stem[|name| + 1..] == version;
  }

  /** A file name is read as (name, version) exactly when it is the file name
      of that gem at that version. */
  lemma ParseIsInverseOfFilename(file: string, name: Name, version: Version)
    ensures Parse(file) == Some((name, version)) <==> ValidName(name) && file == Filename(name, version)
  {
    if ValidName(name) && file == Filename(name, version) {
      ParseFilename(name, version);
    }
  }

  lemma ParseFilenames()
    ensures forall name, version :: ValidName(name) ==> Parse(Filename(name, version)) == Some((name, version))
  {
    forall name, version | ValidName(name)
      ensures Parse(Filename(name, version)) == Some((name, version))
    {
      ParseFilename(name, version);
    }
  }

  /** Two gems' files coincide only when name and version both do. */
  lemma FilenameInjective(n1: Name, v1: Version, n2: Name, v2: Version)
    requires ValidName(n1) && ValidName(n2)
    ensures Filename(n1, v1) == Filename(n2, v2) <==> n1 == n2 && v1 == v2
  {
    ParseFilename(n1, v1);
    ParseFilename(n2, v2);
  }

  lemma FilenamesInjective()
    ensures forall n1, v1, n2, v2 :: ValidName(n1) && ValidName(n2) && Filename(n1, v1) == Filename(n2, v2) ==> n1 == n2 && v1 == v2
  {
    forall n1, v1, n2, v2 | ValidName(n1) && ValidName(n2) && Filename(n1, v1) == Filename(n2, v2)
      ensures n1 == n2 && v1 == v2
    {
      FilenameInjective(n1, v1, n2, v2);
    }
  }

  /** A gem installed from git carries the source revision in its version,
      and its file name still reads back as that name and version. */
  lemma GitRevisionVersion()
    ensures Parse(Filename("ast", "2.4.1-e07a4f66e05ac7972643a8841e336d327ea78ae1"))
         == Some(("ast", "2.4.1-e07a4f66e05ac7972643a8841e336d327ea78ae1"))
  {
    assert ValidName("ast");
    ParseFilename("ast", "2.4.1-e07a4f66e05ac7972643a8841e336d327ea78ae1");
  }
}
