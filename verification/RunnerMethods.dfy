/** What served calls and command lines mean in terms of the user's functions, whatever code path answers them. */
module RunnerMethods {
  import opened Wrappers
  import opened ByteStrings
  import opened RunnerArgs
  import opened Runner
  import opened RunnerProcess
  import opened RunnerLaws

  // ---- how an ending shows ----

  /** The envelope that a body's ending must show as; the output of a body that returns must be JSON itself. */
  predicate Shows(wire: Wire, ending: Ending, e: Envelope) {
    match ending
    case Returns(Ok(bytes)) =>
      if wire.json(bytes).Ok? then e == Success(wire.json(bytes).value)
      else e == Failure("encode_error", "handler output was not valid JSON: " + wire.json(bytes).error, None, "")
    case Returns(Err(m)) => e == Failure("encode_error", m, None, "")
    case Fails(m, details) => e == Failure("function_error", m, details, "")
    case Unwinds(m, backtrace) => e == Failure("panic", m, None, backtrace)
  }

  // ---- calls to the methods of one class ----

  datatype Invocation<!V> = Invocation(method_: (V, Bytes) -> (Ending, V), input: Bytes)

  /** The line is a request for a method of class `c` whose input is JSON and decodes. */
  function MethodCall<V>(s: Setup<V>, c: string, line: string): Option<Invocation<V>> {
    if s.wire.kind(line).Some? && s.wire.kind(line).value != "request" then None
    else
      match s.wire.frame(line)
      case Err(_) => None
      case Ok(r) =>
        var input := s.wire.utf8(r.input);
        if s.wire.json(input).Err? || r.entrypoint !in s.reg.handlers then None
        else
          match s.reg.handlers[r.entrypoint]
          case Free(_, _) => None
          case Method(decode, class_, method_) => if class_ == c && decode(input).None? then Some(Invocation(method_, input)) else None
  }

  /** The class's instance after these lines: its methods folded over it, in order. */
  function Folded<V>(s: Setup<V>, c: string, lines: seq<string>, instance: V): V {
    if lines == [] then instance
    else
      var before := Folded(s, c, lines[..|lines| - 1], instance);
      var call := MethodCall(s, c, lines[|lines| - 1]);
      if call.Some? then call.value.method_(before, call.value.input).1 else before
  }

  lemma PrimeKeepsInstance<V>(s: Setup<V>, w: World<V>, forced: string, c: string)
    requires c in w.cells
    ensures var w' := Accessor(s, w, forced).0; c in w'.cells && w'.cells[c].state == w.cells[c].state
  {}

  lemma {:induction false} PrimesKeepInstance<V>(s: Setup<V>, w: World<V>, classes: seq<string>, c: string)
    requires c in w.cells
    ensures var w' := Primes(s, w, classes).0; c in w'.cells && w'.cells[c].state == w.cells[c].state
  {
    hide Accessor;
    if classes != [] {
      var init := classes[..|classes| - 1];
      PrimesKeepInstance(s, w, init, c);
      PrimeKeepsInstance(s, Primes(s, w, init).0, classes[|classes| - 1], c);
    }
  }

  /** One answered request, for a class that has its instance: a method of the class works on it, anything else leaves it. */
  lemma AnswerFolds<V>(s: Setup<V>, w: World<V>, entrypoint: string, input: Bytes, c: string)
    requires c in w.cells
    ensures var (w', e) := Answer(s, w, entrypoint, input);
      && c in w'.cells
      && if s.wire.json(input).Ok? && entrypoint in s.reg.handlers && IsMethodOf(s.reg.handlers[entrypoint], c, input) then
        var (ending, state) := s.reg.handlers[entrypoint].method_(w.cells[c].state, input);
        w'.cells == w.cells[c := w.cells[c].(state := state)] && Shows(s.wire, ending, e)
      else w'.cells[c].state == w.cells[c].state
  {}

  predicate IsMethodOf<V>(h: Handler<V>, c: string, input: Bytes) {
    h.Method? && h.class_ == c && h.decode(input).None?
  }

  lemma ReplyFolds<V>(s: Setup<V>, w: World<V>, line: string, c: string)
    requires c in w.cells && !s.wire.blank(line)
    ensures var (w', e) := Reply(s, w, line);
      var call := MethodCall(s, c, line);
      && c in w'.cells
      && (call.None? ==> w'.cells[c].state == w.cells[c].state)
      && (call.Some? ==>
            var (ending, state) := call.value.method_(w.cells[c].state, call.value.input);
            w'.cells[c].state == state && Shows(s.wire, ending, e))
  {
    hide Answer, Primes, Shows;
    PrimesKeepInstance(s, w, s.reg.primes, c);
    if Classify(s.wire, line).Call? {
      var r := Classify(s.wire, line).request;
      AnswerFolds(s, w, r.entrypoint, s.wire.utf8(r.input), c);
    }
  }

  /**
   * Load once, then mutable per-container state: over any run of served lines, the instance of an entered class is its
   * methods folded over what it was, and the answer to each call is that method's ending on the instance so far. Calls to
   * other classes and functions, bad frames and primes change nothing of it.
   */
  lemma {:induction false} MethodsFold<V>(s: Setup<V>, w: World<V>, lines: seq<string>, c: string)
    requires c in w.cells && forall i :: 0 <= i < |lines| ==> !s.wire.blank(lines[i])
    ensures var (w', out) := Serve(s, w, lines);
      && |out| == |lines|
      && c in w'.cells && w'.cells[c].state == Folded(s, c, lines, w.cells[c].state)
      && forall i :: 0 <= i < |lines| && MethodCall(s, c, lines[i]).Some? ==>
        var call := MethodCall(s, c, lines[i]).value;
        Shows(s.wire, call.method_(Folded(s, c, lines[..i], w.cells[c].state), call.input).0, out[i])
  {
    hide Reply, MethodCall, Shows;
    if lines != [] {
      var init, last := lines[..|lines| - 1], lines[|lines| - 1];
      assert lines == init + [last];
      MethodsFold(s, w, init, c);
      ServeSnoc(s, w, init, last);
      var (w1, out1) := Serve(s, w, init);
      ReplyFolds(s, w1, last, c);
      var (w', out) := Serve(s, w, lines);
      assert out == out1 + [Reply(s, w1, last).1] && lines[..|init|] == init;
      hide Serve, Folded;
      forall i | 0 <= i < |lines| && MethodCall(s, c, lines[i]).Some?
        ensures var call := MethodCall(s, c, lines[i]).value;
          Shows(s.wire, call.method_(Folded(s, c, lines[..i], w.cells[c].state), call.input).0, out[i])
      {
        if i < |init| {
          assert lines[..i] == init[..i] && lines[i] == init[i];
        }
      }
    }
  }

  /** The first call of a method enters the class: a success is what the method works on, and is kept as it leaves it. */
  lemma FirstCallEnters<V>(s: Setup<V>, w: World<V>, entrypoint: string, input: Bytes, c: string)
    requires c !in w.cells && s.wire.json(input).Ok? && entrypoint in s.reg.handlers && IsMethodOf(s.reg.handlers[entrypoint], c, input)
    ensures var (w', e) := Answer(s, w, entrypoint, input);
      match s.enter(c, Tries(w, c))
      case Entered(v) =>
        var (ending, state) := s.reg.handlers[entrypoint].method_(v, input);
        c in w'.cells && w'.cells[c].state == state && Shows(s.wire, ending, e)
      case Refused(m) => c !in w'.cells && e == Failure("function_error", "function_error: " + m, None, "")
      case Exploded(m, backtrace) => c !in w'.cells && e == Failure("panic", m, None, backtrace)
  {}

  /** The world in which the class has been entered, and its instance is what `enter` gave. */
  function EnteredWorld<V>(s: Setup<V>, w: World<V>, c: string, v: V): World<V> {
    World(w.cells[c := Cell(Tries(w, c), v)], w.tries[c := Tries(w, c) + 1])
  }

  lemma FirstReply<V>(s: Setup<V>, w: World<V>, line: string, c: string, v: V)
    requires c !in w.cells && s.enter(c, Tries(w, c)) == Entered(v)
    requires !s.wire.blank(line) && MethodCall(s, c, line).Some?
    ensures Reply(s, w, line) == Reply(s, EnteredWorld(s, w, c, v), line)
  {
    hide Primes;
    assert Accessor(s, w, c) == (EnteredWorld(s, w, c, v), Ready) == Accessor(s, EnteredWorld(s, w, c, v), c);
    hide Accessor, EnteredWorld;
  }

  lemma {:induction false} ServeFromFirst<V>(s: Setup<V>, w: World<V>, lines: seq<string>, c: string, v: V)
    requires c !in w.cells && s.enter(c, Tries(w, c)) == Entered(v)
    requires lines != [] && !s.wire.blank(lines[0]) && MethodCall(s, c, lines[0]).Some?
    ensures Serve(s, w, lines) == Serve(s, EnteredWorld(s, w, c, v), lines)
  {
    hide Reply, MethodCall, EnteredWorld;
    var w0, init, last := EnteredWorld(s, w, c, v), lines[..|lines| - 1], lines[|lines| - 1];
    assert lines == init + [last];
    ServeSnoc(s, w, init, last);
    ServeSnoc(s, w0, init, last);
    if |lines| == 1 {
      FirstReply(s, w, last, c, v);
    } else {
      ServeFromFirst(s, w, init, c, v);
    }
  }

  /** So from the first call on, the instance is the methods folded over the value `enter` gave, and so are the answers. */
  lemma MethodsFoldFromEnter<V>(s: Setup<V>, w: World<V>, lines: seq<string>, c: string, v: V)
    requires c !in w.cells && s.enter(c, Tries(w, c)) == Entered(v)
    requires lines != [] && MethodCall(s, c, lines[0]).Some? && forall i :: 0 <= i < |lines| ==> !s.wire.blank(lines[i])
    ensures var (w', out) := Serve(s, w, lines);
      && |out| == |lines|
      && c in w'.cells && w'.cells[c].state == Folded(s, c, lines, v)
      && forall i :: 0 <= i < |lines| && MethodCall(s, c, lines[i]).Some? ==>
        var call := MethodCall(s, c, lines[i]).value;
        Shows(s.wire, call.method_(Folded(s, c, lines[..i], v), call.input).0, out[i])
  {
    hide Reply, MethodCall, Shows, Serve, Folded;
    ServeFromFirst(s, w, lines, c, v);
    MethodsFold(s, EnteredWorld(s, w, c, v), lines, c);
  }

  /** A free function is answered with its ending, and no class is touched. */
  lemma FreeFunctionShows<V>(s: Setup<V>, w: World<V>, entrypoint: string, input: Bytes)
    requires s.wire.json(input).Ok? && entrypoint in s.reg.handlers && s.reg.handlers[entrypoint].Free?
    requires s.reg.handlers[entrypoint].decode(input).None?
    ensures var (w', e) := Answer(s, w, entrypoint, input);
      w' == w && Shows(s.wire, s.reg.handlers[entrypoint].body(input), e)
  {}

  // ---- what each line and each command line is ----

  /** A line by its `kind`: without one, or with "request", it is the one-shot run of its frame. */
  lemma LineMeans<V>(s: Setup<V>, w: World<V>, line: string)
    requires !s.wire.blank(line)
    ensures var (w', e) := Reply(s, w, line);
      match s.wire.kind(line)
      case Some(kind) =>
        && (kind == "prime" ==> e.PrimeAck?)
        && (kind != "prime" && kind != "request" ==> w' == w && e.Failure? && e.kind == "decode_error")
        && (kind == "request" ==> FrameMeans(s, w, line))
      case None => FrameMeans(s, w, line)
  {
    hide Answer, Primes, Parsed, RunCli;
    if Classify(s.wire, line).Call? {
      ServeEqualsOneShot(s, w, line);
    }
  }

  ghost predicate FrameMeans<V>(s: Setup<V>, w: World<V>, line: string)
    requires !s.wire.blank(line)
  {
    var (w', e) := Reply(s, w, line);
    match s.wire.frame(line)
    case Ok(r) =>
      RunCli(s, w, ["--entrypoint", r.entrypoint, "--input-json", r.input]) == (w', [e], if e.Failure? then 1 else 0)
    case Err(_) => w' == w && e.Failure? && e.kind == "decode_error"
  }

  /** Input from a file or from standard input runs as the same bytes given inline; an unreadable one prints nothing and exits 1. */
  lemma InputSourcesAgree<V>(s: Setup<V>, w: World<V>, name: string, path: string, text: string)
    ensures var inline := RunCli(s, w, ["--entrypoint", name, "--input-json", text]);
      var fromFile := RunCli(s, w, ["--entrypoint", name, "--input-file", path]);
      var fromStdin := RunCli(s, w, ["--entrypoint", name, "--input-stdin"]);
      && (s.wire.file(path) == Ok(s.wire.utf8(text)) ==> fromFile == inline)
      && (s.wire.stdin == Ok(s.wire.utf8(text)) ==> fromStdin == inline)
      && (s.wire.file(path).Err? ==> fromFile == (w, [], 1))
      && (s.wire.stdin.Err? ==> fromStdin == (w, [], 1))
  {
    hide Answer, Parsed;
    ParsedIs(["--entrypoint", name, "--input-json", text], Args(name, Json(text)));
    ParsedIs(["--entrypoint", name, "--input-file", path], Args(name, File(path)));
    ParsedIs(["--entrypoint", name, "--input-stdin"], Args(name, Stdin));
  }

  // ---- priming ----

  /** What one more registered prime adds to the acknowledgement. */
  lemma AckOneMore<V>(s: Setup<V>, w: World<V>, init: seq<string>, c: string)
    ensures var (w1, before) := Primes(s, w, init);
      var ack, ack' := Ack(before), Ack(Primes(s, w, init + [c]).1);
      var failing := PrimeAck(ack.primed, ack.failed + 1, ack.errors);
      if c in w1.cells then ack' == PrimeAck(ack.primed + 1, ack.failed, ack.errors)
      else
        match s.enter(c, Tries(w1, c))
        case Entered(_) => ack' == PrimeAck(ack.primed + 1, ack.failed, ack.errors)
        case Refused(m) => ack' == failing.(errors := ack.errors + ["function_error: " + m])
        case Exploded(_, _) => ack' == failing.(errors := ack.errors + ["snapshot prime panicked"])
  {
    var (w1, before) := Primes(s, w, init);
    PrimesSnoc(s, w, init, c);
    PrimeErrorMeans(s, w1, c);
    hide Accessor, PrimeError;
    AckSnoc(before, PrimeError(Accessor(s, w1, c).1));
    assert Messages(before) + [] == Messages(before);
    hide Primes, Messages, CountPrimed;
  }

  lemma PrimeErrorMeans<V>(s: Setup<V>, w: World<V>, c: string)
    ensures var error := PrimeError(Accessor(s, w, c).1);
      if c in w.cells then error.None?
      else
        match s.enter(c, Tries(w, c))
        case Entered(_) => error.None?
        case Refused(m) => error == Some("function_error: " + m)
        case Exploded(_, _) => error == Some("snapshot prime panicked")
  {
    assert "function_error" + ": " == "function_error: ";
  }

  // ---- local validation ----

  /** A runner's validation verdict, by the line its `--check-input` run prints. */
  lemma ValidatedMeans<V>(s: Setup<V>, entrypoint: string, input: string, m: string)
    ensures var (_, printed, code) :=
        RunCli(s, World(map[], map[]), ["--check-input", "--entrypoint", entrypoint, "--input-json", input]);
      Validated(Runs(s), entrypoint, input) == Reject(m) <==>
        code != 0 && |printed| == 1 && printed[0].Failure? && printed[0].kind != "unknown_entrypoint" && printed[0].message == m
  {
    var argv := ["--check-input", "--entrypoint", entrypoint, "--input-json", input];
    assert argv[1..] == ["--entrypoint", entrypoint, "--input-json", input];
    ParsedIs(argv[1..], Args(entrypoint, Json(input)));
    hide Parsed, CheckInput;
  }
}
