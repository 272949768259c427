/**
 * What the runner answers. A process holds one load-once instance per class; a request may build it, run a method
 * on it and change it, and a prime frame may build it early. The functions here give one step's answer and next
 * state; the lemmas are about whole runs.
 */
module Runner {
  import opened Wrappers
  import opened ByteStrings
  import opened RunnerArgs

  // ---- errors and envelopes ----

  /** `Function.details` and every JSON value are their serialized text. */
  datatype RunnerError =
    | Decode(message: string)
    | UnknownEntrypoint(message: string)
    | Function(message: string, details: Option<Bytes>)
    | Encode(message: string)
    | Panic(message: string, backtrace: string)
  {
    function Kind(): string {
      match this
      case Decode(_) => "decode_error"
      case UnknownEntrypoint(_) => "unknown_entrypoint"
      case Function(_, _) => "function_error"
      case Encode(_) => "encode_error"
      case Panic(_, _) => "panic"
    }

    function ToEnvelope(): Envelope {
      Failure(Kind(), message, if Function? then details else None, if Panic? then backtrace else "")
    }

    function ToText(): string { Kind() + ": " + message }
  }

  datatype Envelope =
    | Success(value: Bytes)
    | Failure(kind: string, message: string, details: Option<Bytes>, backtrace: string)
    | PrimeAck(primed: nat, failed: nat, errors: seq<string>)
    | Checked
    | NotChecked

  // ---- what user code can do ----

  /** How a body ends: it returns a value that may fail to serialize, returns an error, or unwinds. */
  datatype Ending = Returns(output: Result<Bytes, string>) | Fails(message: string, details: Option<Bytes>) | Unwinds(message: string, backtrace: string)

  /** How one attempt at a class's `#[enter]` ends. */
  datatype Enter<V> = Entered(value: V) | Refused(message: string) | Exploded(message: string, backtrace: string)

  /** The decode step of a handler: the error message, or nothing when the input decodes. */
  type Decoder = Bytes -> Option<string>

  /** A free function, or a method of a class: it reads and may change the class's one instance, even when it unwinds. */
  datatype Handler<!V> =
    | Free(decode: Decoder, body: Bytes -> Ending)
    | Method(decode: Decoder, class_: string, method_: (V, Bytes) -> (Ending, V))

  /** `primes` names, once per registration, the class whose instance the hook forces. */
  datatype Registry<!V> = Registry(handlers: map<string, Handler<V>>, checks: map<string, Decoder>, primes: seq<string>)

  datatype Request = Request(entrypoint: string, input: string)

  /** JSON reading and the outside world. `json` gives a value's text back, or the parse error. */
  datatype Wire = Wire(
    json: Bytes -> Result<Bytes, string>,
    kind: string -> Option<string>,
    frame: string -> Result<Request, string>,
    blank: string -> bool,
    utf8: string -> Bytes,
    unknown: (set<string>, string) -> string,
    file: string -> Result<Bytes, string>,
    stdin: Result<Bytes, string>,
    webServer: seq<string> -> int)

  /** `enter(c, n)` is how attempt number `n` at class `c` ends. */
  datatype Setup<!V> = Setup(reg: Registry<V>, wire: Wire, enter: (string, nat) -> Enter<V>)

  /** `made` is the attempt that built the instance. */
  datatype Cell<V> = Cell(made: nat, state: V)

  datatype World<V> = World(cells: map<string, Cell<V>>, tries: map<string, nat>)

  function Tries<V>(w: World<V>, c: string): nat { if c in w.tries then w.tries[c] else 0 }

  // ---- the load-once accessor ----

  datatype Access = Ready | NotReady(error: RunnerError)

  /** Get or try to build: only a success is kept. */
  function Accessor<V>(s: Setup<V>, w: World<V>, c: string): (World<V>, Access) {
    if c in w.cells then (w, Ready)
    else
      var n := Tries(w, c);
      var tried := w.(tries := w.tries[c := n + 1]);
      match s.enter(c, n)
      case Entered(v) => (tried.(cells := w.cells[c := Cell(n, v)]), Ready)
      case Refused(m) => (tried, NotReady(Function(m, None)))
      case Exploded(m, b) => (tried, NotReady(Panic(m, b)))
  }

  // ---- one request ----

  function Finish(e: Ending): Result<Bytes, RunnerError> {
    match e
    case Returns(Ok(bytes)) => Ok(bytes)
    case Returns(Err(m)) => Err(Encode(m))
    case Fails(m, d) => Err(Function(m, d))
    case Unwinds(m, b) => Err(Panic(m, b))
  }

  /** The handler under `catch_unwind`: decode, then for a method resolve the instance, then the body. */
  function RunHandler<V>(s: Setup<V>, w: World<V>, h: Handler<V>, input: Bytes): (World<V>, Result<Bytes, RunnerError>) {
    if h.decode(input).Some? then (w, Err(Decode(h.decode(input).value)))
    else
      match h
      case Free(_, body) => (w, Finish(body(input)))
      case Method(_, c, method_) =>
        var (w', access) := Accessor(s, w, c);
        match access
        case NotReady(Panic(m, b)) => (w', Err(Panic(m, b)))
        case NotReady(e) => (w', Err(Function(e.ToText(), None)))
        case Ready =>
          var (ending, state) := method_(w'.cells[c].state, input);
          (w'.(cells := w'.cells[c := w'.cells[c].(state := state)]), Finish(ending))
  }

  /** Top-level JSON before entrypoint lookup before decoding; the output must itself be JSON. */
  function Answer<V>(s: Setup<V>, w: World<V>, entrypoint: string, input: Bytes): (World<V>, Envelope) {
    match s.wire.json(input)
    case Err(m) => (w, Decode(m).ToEnvelope())
    case Ok(_) =>
      if entrypoint !in s.reg.handlers then
        (w, UnknownEntrypoint(s.wire.unknown(s.reg.handlers.Keys, entrypoint)).ToEnvelope())
      else
        var (w', r) := RunHandler(s, w, s.reg.handlers[entrypoint], input);
        match r
        case Err(e) => (w', e.ToEnvelope())
        case Ok(bytes) =>
          match s.wire.json(bytes)
          case Ok(value) => (w', Success(value))
          case Err(m) => (w', Encode("handler output was not valid JSON: " + m).ToEnvelope())
  }

  // ---- the command line ----

  function ReadInput(wire: Wire, input: InputSource): Result<Bytes, string> {
    match input
    case Json(text) => Ok(wire.utf8(text))
    case File(path) => wire.file(path)
    case Stdin => wire.stdin
  }

  /** Decode only: the same precedence, stopping before the body. */
  function CheckInput<V>(s: Setup<V>, entrypoint: string, input: Bytes): Envelope {
    match s.wire.json(input)
    case Err(m) => Decode(m).ToEnvelope()
    case Ok(_) =>
      if entrypoint !in s.reg.handlers then UnknownEntrypoint(s.wire.unknown(s.reg.handlers.Keys, entrypoint)).ToEnvelope()
      else if entrypoint !in s.reg.checks then NotChecked
      else match s.reg.checks[entrypoint](input) case None => Checked case Some(m) => Decode(m).ToEnvelope()
  }

  function ExitCode(e: Envelope): int { if e.Failure? then 1 else 0 }

  ghost function Parsed(argv: seq<string>): (r: Option<Args>)
    ensures r.Some? ==> Renders(argv, r.value)
    ensures r.None? ==> forall a :: !Renders(argv, a)
  {
    if exists a :: Renders(argv, a) then
      var a :| Renders(argv, a);
      Some(a)
    else None
  }

  /** One invocation: the class state it leaves, what it prints, and the exit code. */
  ghost function RunCli<V>(s: Setup<V>, w: World<V>, argv: seq<string>): (World<V>, seq<Envelope>, int) {
    if argv != [] && argv[0] == "--web-server" then (w, [], s.wire.webServer(argv[1..]))
    else
      var check := argv != [] && argv[0] == "--check-input";
      match Parsed(if check then argv[1..] else argv)
      case None => (w, [], 1)
      case Some(a) =>
        match ReadInput(s.wire, a.input)
        case Err(_) => (w, [], 1)
        case Ok(raw) =>
          if check then
            var e := CheckInput(s, a.entrypoint, raw);
            (w, [e], ExitCode(e))
          else
            var (w', e) := Answer(s, w, a.entrypoint, raw);
            (w', [e], ExitCode(e))
  }

  // ---- priming ----

  /** One prime per registration, each ending in success or in one message. */
  function Primes<V>(s: Setup<V>, w: World<V>, classes: seq<string>): (World<V>, seq<Option<string>>) {
    if classes == [] then (w, [])
    else
      var (w1, before) := Primes(s, w, classes[..|classes| - 1]);
      var (w2, access) := Accessor(s, w1, classes[|classes| - 1]);
      (w2, before + [PrimeError(access)])
  }

  function PrimeError(access: Access): Option<string> {
    match access
    case Ready => None
    case NotReady(Panic(_, _)) => Some("snapshot prime panicked")
    case NotReady(e) => Some(e.ToText())
  }

  function Messages(outcomes: seq<Option<string>>): seq<string> {
    if outcomes == [] then []
    else Messages(outcomes[..|outcomes| - 1]) + Message(outcomes[|outcomes| - 1])
  }

  function Message(outcome: Option<string>): seq<string> {
    match outcome case None => [] case Some(m) => [m]
  }

  function Ack(outcomes: seq<Option<string>>): Envelope {
    var errors := Messages(outcomes);
    PrimeAck(CountPrimed(outcomes), |errors|, errors)
  }

  function CountPrimed(outcomes: seq<Option<string>>): nat {
    if outcomes == [] then 0
    else CountPrimed(outcomes[..|outcomes| - 1]) + if outcomes[|outcomes| - 1].None? then 1 else 0
  }

  lemma PrimesSnoc<V>(s: Setup<V>, w: World<V>, init: seq<string>, c: string)
    ensures var (w1, before) := Primes(s, w, init);
      Primes(s, w, init + [c]) == (Accessor(s, w1, c).0, before + [PrimeError(Accessor(s, w1, c).1)])
  {
    hide Accessor;
    assert (init + [c])[..|init|] == init;
  }

  lemma AckSnoc(init: seq<Option<string>>, outcome: Option<string>)
    ensures Messages(init + [outcome]) == Messages(init) + Message(outcome)
    ensures CountPrimed(init + [outcome]) == CountPrimed(init) + if outcome.None? then 1 else 0
  {
    assert (init + [outcome])[..|init|] == init;
  }

  /** An acknowledgement accounts for every registered prime, with one message per failure in order. */
  lemma {:induction false} AckAccounts<V>(s: Setup<V>, w: World<V>, classes: seq<string>)
    ensures var outcomes := Primes(s, w, classes).1;
      |outcomes| == |classes| && CountPrimed(outcomes) + |Messages(outcomes)| == |classes|
  {
    if classes != [] {
      var init, c := classes[..|classes| - 1], classes[|classes| - 1];
      AckAccounts(s, w, init);
      var (w1, before) := Primes(s, w, init);
      AckSnoc(before, PrimeError(Accessor(s, w1, c).1));
    }
  }

  // ---- serving ----

  datatype Frame = Blank | Prime | UnknownKind(kind: string) | Malformed(message: string) | Call(request: Request)

  /** Only an explicit `kind` other than "request" is taken off the request path. */
  function Classify(wire: Wire, line: string): Frame {
    if wire.blank(line) then Blank
    else if wire.kind(line).Some? && wire.kind(line).value == "prime" then Prime
    else if wire.kind(line).Some? && wire.kind(line).value != "request" then UnknownKind(wire.kind(line).value)
    else match wire.frame(line) case Ok(r) => Call(r) case Err(m) => Malformed(m)
  }

  /** The envelope a non-blank line is answered with, and the state it leaves. */
  function Reply<V>(s: Setup<V>, w: World<V>, line: string): (World<V>, Envelope)
    requires !s.wire.blank(line)
  {
    match Classify(s.wire, line)
    case Prime => var (w', outcomes) := Primes(s, w, s.reg.primes); (w', Ack(outcomes))
    case UnknownKind(k) => (w, Decode("unknown serve frame kind: " + k).ToEnvelope())
    case Malformed(m) => (w, Decode("malformed serve request frame: " + m).ToEnvelope())
    case Call(r) => Answer(s, w, r.entrypoint, s.wire.utf8(r.input))
  }

  function Serve<V>(s: Setup<V>, w: World<V>, lines: seq<string>): (World<V>, seq<Envelope>) {
    if lines == [] then (w, [])
    else
      var (w1, out) := Serve(s, w, lines[..|lines| - 1]);
      var line := lines[|lines| - 1];
      if s.wire.blank(line) then (w1, out)
      else var (w2, envelope) := Reply(s, w1, line); (w2, out + [envelope])
  }

  lemma ServeSnoc<V>(s: Setup<V>, w: World<V>, init: seq<string>, line: string)
    ensures var (w1, out) := Serve(s, w, init);
      Serve(s, w, init + [line]) ==
        if s.wire.blank(line) then (w1, out) else (Reply(s, w1, line).0, out + [Reply(s, w1, line).1])
  {
    hide Reply;
    assert (init + [line])[..|init|] == init;
  }

  /** Serving a concatenation is serving the first part and then the second from the state it left. */
  lemma {:induction false} ServeConcat<V>(s: Setup<V>, w: World<V>, a: seq<string>, b: seq<string>)
    ensures var (w1, out1) := Serve(s, w, a);
      var (w2, out2) := Serve(s, w1, b);
      Serve(s, w, a + b) == (w2, out1 + out2)
  {
    hide Reply;
    var (w1, out1) := Serve(s, w, a);
    if b == [] {
      assert a + b == a && out1 + [] == out1;
    } else {
      var init, line := b[..|b| - 1], b[|b| - 1];
      assert b == init + [line] && a + b == (a + init) + [line];
      ServeSnoc(s, w, a + init, line);
      ServeSnoc(s, w1, init, line);
      ServeConcat(s, w, a, init);
      if !s.wire.blank(line) {
        var (w2, out2) := Serve(s, w1, init);
        var last := [Reply(s, w2, line).1];
        assert (out1 + out2) + last == out1 + (out2 + last);
      }
    }
  }

  function NonBlank(wire: Wire, lines: seq<string>): (r: seq<string>)
    ensures forall i :: 0 <= i < |r| ==> !wire.blank(r[i])
  {
    if lines == [] then []
    else
      var init, line := lines[..|lines| - 1], lines[|lines| - 1];
      if wire.blank(line) then NonBlank(wire, init) else NonBlank(wire, init) + [line]
  }

  lemma {:induction false} BlanksDoNothing<V>(s: Setup<V>, w: World<V>, lines: seq<string>)
    ensures Serve(s, w, lines) == Serve(s, w, NonBlank(s.wire, lines))
  {
    hide Reply;
    if lines != [] {
      var init, line := lines[..|lines| - 1], lines[|lines| - 1];
      assert lines == init + [line];
      BlanksDoNothing(s, w, init);
      ServeSnoc(s, w, init, line);
      ServeSnoc(s, w, NonBlank(s.wire, init), line);
    }
  }

  lemma {:induction false} RepliesInOrder<V>(s: Setup<V>, w: World<V>, calls: seq<string>)
    requires forall i :: 0 <= i < |calls| ==> !s.wire.blank(calls[i])
    ensures |Serve(s, w, calls).1| == |calls|
    ensures forall i :: 0 <= i < |calls| ==> Serve(s, w, calls).1[i] == Reply(s, Serve(s, w, calls[..i]).0, calls[i]).1
  {
    hide Reply;
    if calls != [] {
      var init, last := calls[..|calls| - 1], calls[|calls| - 1];
      assert calls == init + [last];
      RepliesInOrder(s, w, init);
      ServeSnoc(s, w, init, last);
      forall i | 0 <= i < |calls| ensures Serve(s, w, calls).1[i] == Reply(s, Serve(s, w, calls[..i]).0, calls[i]).1 {
        hide Serve;
        if i < |init| {
          assert init[..i] == calls[..i] && init[i] == calls[i];
        }
      }
    }
  }

  /** One answer per non-blank line, in order, each the reply to its line from the state the earlier lines left. */
  lemma OneAnswerPerLine<V>(s: Setup<V>, w: World<V>, lines: seq<string>)
    ensures var calls, out := NonBlank(s.wire, lines), Serve(s, w, lines).1;
      && |out| == |calls|
      && forall i :: 0 <= i < |calls| ==> out[i] == Reply(s, Serve(s, w, calls[..i]).0, calls[i]).1
  {
    hide Reply, Serve;
    BlanksDoNothing(s, w, lines);
    RepliesInOrder(s, w, NonBlank(s.wire, lines));
  }
}
