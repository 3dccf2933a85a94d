/**
 The command part of `main`: the data file is loaded, the one command named
 on the command line runs against the records, and the records are written
 back only when the command marked them dirty, which only `add` does.
 The command arrives already parsed; the file is modelled by what it holds.
 */
module Dispatch {
  import opened Wrappers
  import opened Planes
  import opened Render

  /**
   What the argument parser can hand to `main`: one of the three subcommands,
   or `NoCommand` for a command line that names none (the subparsers are not
   required, so `args.command` is `None`).
   */
  datatype Command =
    | Add(destination: string, num: int, typ: string)
    | Display
    | Select(jet: string)
    | NoCommand

  /** The data file as the loader finds it. */
  datatype DataFile =
    | Missing                      // no file at the path
    | Unreadable                   // cannot be opened or is not valid JSON
    | Holds(planes: seq<Plane>)    // a JSON list of records

  /**
   Loading: a missing or unreadable file gives an empty store (the failure is
   only logged), a readable one gives its records unchanged.
   */
  function LoadPlanes(file: DataFile): seq<Plane> {
    match file
    case Holds(planes) => planes
    case _ => []
  }

  /**
   How one run of the program ends. `Finished` carries the records in memory
   at the end, whether they were saved, the list handed to the presenter (if
   any), the lines it printed, and the data file afterwards.
   `NoFilename` is the `AttributeError` raised when `main` reads
   `args.filename` on a command line without a subcommand: the file name is
   declared only on the subcommands, so the program stops before it loads,
   saves or prints anything.
   */
  datatype Outcome =
    | Finished(
        planes: seq<Plane>,
        saved: bool,
        shown: Option<seq<Plane>>,
        output: seq<string>,
        file: DataFile)
    | NoFilename

  /** The list a command hands to the presenter. */
  function Shown(loaded: seq<Plane>, cmd: Command): Option<seq<Plane>> {
    match cmd
    case Display => Some(loaded)
    case Select(jet) => Some(SelectPlanes(loaded, jet))
    case _ => None
  }

  /** One run of `main` on an already parsed command. */
  method Run(file: DataFile, cmd: Command) returns (out: Outcome)
    ensures out.NoFilename? <==> cmd.NoCommand?
    ensures out.Finished? ==> (out.saved <==> cmd.Add?)
    ensures out.Finished? && cmd.Add? ==>
      && out.planes == LoadPlanes(file) + [NewPlane(cmd.destination, cmd.num, cmd.typ)]
      && out.planes == AddAll(LoadPlanes(file), [AddArgs(cmd.destination, cmd.num, cmd.typ)])
    ensures out.Finished? && !cmd.Add? ==> out.planes == LoadPlanes(file)
    ensures out.Finished? ==> out.shown == Shown(LoadPlanes(file), cmd)
    ensures out.Finished? ==> out.output == (if out.shown.Some? then Table(out.shown.value) else [])
    ensures out.Finished? && out.saved ==> out.file == Holds(out.planes)
    ensures out.Finished? && !out.saved ==> out.file == file
    ensures out.Finished? ==> LoadPlanes(out.file) == out.planes
  {
    if cmd.NoCommand? {
      // `args.filename` does not exist: the run stops here with an AttributeError
      return NoFilename;
    }
    var isDirty := false;
    var planes := new PlaneList(LoadPlanes(file));
    var shown: Option<seq<Plane>> := None;
    var output: seq<string> := [];
    if cmd.Add? {
      planes := AddPlane(planes, cmd.destination, cmd.num, cmd.typ);
      isDirty := true;
    } else if cmd.Display? {
      output := DisplayPlanes(planes.items);
      shown := Some(planes.items);
    } else if cmd.Select? {
      var selected := SelectPlanes(planes.items, cmd.jet);
      output := DisplayPlanes(selected);
      shown := Some(selected);
    }
    var after := file;
    if isDirty {
      after := Holds(planes.items);
    }
    out := Finished(planes.items, isDirty, shown, output, after);
  }
}
