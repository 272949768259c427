/** The runner's three flags. */
module RunnerArgs {
  import opened Wrappers

  datatype InputSource = Json(text: string) | File(path: string) | Stdin

  datatype Args = Args(entrypoint: string, input: InputSource)

  datatype ArgError =
    | MissingValue(flag: string)
    | RepeatedEntrypoint
    | RepeatedInput
    | Unrecognized(arg: string)
    | NoEntrypoint
    | NoInput

  function InputFlag(input: InputSource): seq<string> {
    match input
    case Json(text) => ["--input-json", text]
    case File(path) => ["--input-file", path]
    case Stdin => ["--input-stdin"]
  }

  function EntrypointFlag(name: string): seq<string> { ["--entrypoint", name] }

  /** The whole argument language: one entrypoint and one input, in either order. */
  predicate Renders(argv: seq<string>, a: Args) {
    || argv == EntrypointFlag(a.entrypoint) + InputFlag(a.input)
    || argv == InputFlag(a.input) + EntrypointFlag(a.entrypoint)
  }

  lemma RendersAtMostOne(argv: seq<string>, a: Args, b: Args)
    requires Renders(argv, a) && Renders(argv, b)
    ensures a == b
  {
    ByFirst(argv, a);
    ByFirst(argv, b);
  }

  lemma ByFirst(argv: seq<string>, a: Args)
    requires Renders(argv, a)
    ensures |argv| == if a.input.Stdin? then 3 else 4
    ensures var at := if argv[0] == "--entrypoint" then 0 else |argv| - 2;
      argv[at] == "--entrypoint" && argv[at + 1] == a.entrypoint
    ensures var at := if argv[0] == "--entrypoint" then 2 else 0;
      match a.input
      case Json(text) => argv[at] == "--input-json" && argv[at + 1] == text
      case File(path) => argv[at] == "--input-file" && argv[at + 1] == path
      case Stdin => argv[at] == "--input-stdin"
  {}

  /** What has been read of `argv[..i]` so far. */
  ghost predicate ReadSoFar(argv: seq<string>, i: nat, entrypoint: Option<string>, input: Option<InputSource>) {
    && i <= |argv|
    && match (entrypoint, input)
       case (None, None) => i == 0
       case (Some(e), None) => argv[..i] == EntrypointFlag(e)
       case (None, Some(f)) => argv[..i] == InputFlag(f)
       case (Some(e), Some(f)) => Renders(argv[..i], Args(e, f))
  }

  /** `parse_args` accepts exactly the argument language, and reads values off it even when they look like flags. */
  method ParseArgs(argv: seq<string>) returns (r: Result<Args, ArgError>)
    ensures r.Ok? ==> Renders(argv, r.value)
    ensures r.Err? ==> forall a :: !Renders(argv, a)
  {
    var entrypoint: Option<string> := None;
    var input: Option<InputSource> := None;
    var i := 0;
    while i < |argv|
      invariant ReadSoFar(argv, i, entrypoint, input)
    {
      NotStuck(argv, i, entrypoint, input);
      match argv[i]
      case "--entrypoint" =>
        if i + 1 >= |argv| {
          return Err(MissingValue("--entrypoint"));
        }
        if entrypoint.Some? {
          return Err(RepeatedEntrypoint);
        }
        entrypoint := Some(argv[i + 1]);
        assert argv[..i + 2] == argv[..i] + EntrypointFlag(argv[i + 1]);
        i := i + 2;
      case "--input-json" =>
        if i + 1 >= |argv| {
          return Err(MissingValue("--input-json"));
        }
        if input.Some? {
          return Err(RepeatedInput);
        }
        input := Some(Json(argv[i + 1]));
        assert argv[..i + 2] == argv[..i] + InputFlag(Json(argv[i + 1]));
        i := i + 2;
      case "--input-file" =>
        if i + 1 >= |argv| {
          return Err(MissingValue("--input-file"));
        }
        if input.Some? {
          return Err(RepeatedInput);
        }
        input := Some(File(argv[i + 1]));
        assert argv[..i + 2] == argv[..i] + InputFlag(File(argv[i + 1]));
        i := i + 2;
      case "--input-stdin" =>
        if input.Some? {
          return Err(RepeatedInput);
        }
        input := Some(Stdin);
        assert argv[..i + 1] == argv[..i] + InputFlag(Stdin);
        i := i + 1;
      case other =>
        return Err(Unrecognized(other));
    }
    assert argv[..i] == argv;
    if entrypoint.None? {
      return Err(NoEntrypoint);
    }
    if input.None? {
      return Err(NoInput);
    }
    return Ok(Args(entrypoint.value, input.value));
  }

  /** On an argument list of the language, the flag at `i` is one that is still missing, with its value. */
  lemma NotStuck(argv: seq<string>, i: nat, entrypoint: Option<string>, input: Option<InputSource>)
    requires i < |argv| && ReadSoFar(argv, i, entrypoint, input)
    ensures forall a :: Renders(argv, a) ==>
      || (argv[i] == "--entrypoint" && i + 1 < |argv| && entrypoint.None?)
      || (argv[i] in ["--input-json", "--input-file"] && i + 1 < |argv| && input.None?)
      || (argv[i] == "--input-stdin" && input.None?)
  {
    var read := argv[..i];
    assert forall k :: 0 <= k < i ==> read[k] == argv[k];
    forall a | Renders(argv, a)
      ensures || (argv[i] == "--entrypoint" && i + 1 < |argv| && entrypoint.None?)
              || (argv[i] in ["--input-json", "--input-file"] && i + 1 < |argv| && input.None?)
              || (argv[i] == "--input-stdin" && input.None?)
    {
      ByFirst(argv, a);
      if entrypoint.Some? && input.Some? {
        ByFirst(read, Args(entrypoint.value, input.value));
      }
    }
  }
}
