/** The run's console output: the events a run reports, and the exact lines
    each one prints. The lines of the two sync phases and of a generation
    are indented as printed inside the tool's indented shell blocks. */
module Log {
  import opened Identity

  /** The status a file write reports: a new file, or an overwrite. */
  datatype Status = Create | Force

  datatype Event =
    | RemovalHeading
    | GenerationHeading
    | Blank
    | NothingToDo
    | Removing(path: string)
    | Moving(from: string, to: string)
    | Processing(name: Name)
    | Compiling(name: Name, emptyOutput: bool)
    | Wrote(status: Status, path: string)
    | MissingSpecs(gems: seq<(Name, Version)>)
    | LoadFailed(message: string, postrequire: string)

  /** The path a file of the output directory is reported under. */
  function Path(outdir: string, file: string): string {
    outdir + "/" + file
  }

  const RemovalTitle: string := "Removing RBI files of gems that have been removed:"
  const GenerationTitle: string := "Generating RBI files of gems that are added or updated:"
  const NothingLine: string := "  Nothing to do."
  const RemovingLead: string := "  -- Removing: "
  const MovingLead: string := "  -> Moving: "
  const CreateLead: string := "      create  "
  const ForceLead: string := "       force  "
  const CompilingTail: string := ", this may take a few seconds...   Done"
  const EmptyTail: string := " (empty output)"
  const MissingLead: string := "    completed with missing specs:   "
  const RequiringLine: string := "Requiring all gems to prepare for compiling... "
  const CouldNotLoad: string := "Tapioca could not load all the gems required by your application."
  const ReviewAdvice: string := "you should probably review it and remove the faulty line."

  /** `name (version)`, the gems joined by `, `. */
  function GemList(gems: seq<(Name, Version)>): string
    decreases |gems|
  {
    if gems == [] then ""
    else
      var entry := gems[0].0 + " (" + gems[0].1 + ")";
      if |gems| == 1 then entry else entry + ", " + GemList(gems[1..])
  }

  /** The lines one event prints. */
  function Lines(e: Event): (r: seq<string>)
    ensures e.LoadFailed? ==> |r| == 7
    ensures !e.LoadFailed? ==> |r| == 1
  {
    match e
    case RemovalHeading => [RemovalTitle]
    case GenerationHeading => [GenerationTitle]
    case Blank => [""]
    case NothingToDo => [NothingLine]
    case Removing(path) => [RemovingLead + path]
    case Moving(from, to) => [MovingLead + from + " to " + to]
    case Processing(name) => ["Processing '" + name + "' gem:"]
    case Compiling(name, emptyOutput) =>
      ["  Compiling " + name + CompilingTail + (if emptyOutput then EmptyTail else "")]
    case Wrote(status, path) => [(if status == Create then CreateLead else ForceLead) + path]
    case MissingSpecs(gems) => [MissingLead + GemList(gems)]
    case LoadFailed(message, postrequire) =>
      [RequiringLine, "", message, "", CouldNotLoad,
       "If you populated " + postrequire + " with `bin/tapioca require`", ReviewAdvice]
  }

  /** The lines a sequence of events prints, in order. */
  function Render(log: seq<Event>): (r: seq<string>)
    ensures |r| >= |log|
    decreases |log|
  {
    if log == [] then [] else Lines(log[0]) + Render(log[1..])
  }

  /** Printing two runs of events one after the other prints the lines of
      the first, then the lines of the second. */
  lemma {:induction false} RenderAppend(a: seq<Event>, b: seq<Event>)
    ensures Render(a + b) == Render(a) + Render(b)
    decreases |a|
  {
    if a == [] {
      assert a + b == b;
    } else {
      assert (a + b)[0] == a[0] && (a + b)[1..] == a[1..] + b;
      RenderAppend(a[1..], b);
      assert Lines(a[0]) + (Render(a[1..]) + Render(b)) == (Lines(a[0]) + Render(a[1..])) + Render(b);
    }
  }

  lemma AppendAssociative(a: seq<Event>, b: seq<Event>, c: seq<Event>, d: seq<Event>)
    ensures a + (b + c + d) == a + b + c + d
  {
  }
}
