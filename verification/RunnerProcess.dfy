/** The runner process: process-wide class instances, an output stream, and the code paths that drive them. */
module RunnerProcess {
  import opened Wrappers
  import opened ByteStrings
  import opened RunnerArgs
  import opened Runner

  // ---- building the registry ----

  datatype Registration<!V> = Registration(name: string, handler: Handler<V>, check: Option<Decoder>, prime: Option<string>)

  function EmptyRegistry<V>(): Registry<V> { Registry(map[], map[], []) }

  /** `function` and `function_checked`: `None` is the panic on a name already taken. */
  function Register<V>(r: Registry<V>, name: string, handler: Handler<V>, check: Option<Decoder>): Option<Registry<V>> {
    if name in r.handlers then None
    else
      var added := r.(handlers := r.handlers[name := handler]);
      Some(if check.Some? then added.(checks := r.checks[name := check.value]) else added)
  }

  predicate DistinctNames<V>(rs: seq<Registration<V>>) {
    forall i, j :: 0 <= i < j < |rs| ==> rs[i].name != rs[j].name
  }

  predicate Submitted<V>(rs: seq<Registration<V>>, name: string) {
    exists i :: 0 <= i < |rs| && rs[i].name == name
  }

  /** The registry holds each registration under its name, and nothing else. */
  ghost predicate Holds<V>(r: Registry<V>, rs: seq<Registration<V>>) {
    && (forall name :: name in r.handlers <==> Submitted(rs, name))
    && (forall name :: name in r.checks ==> name in r.handlers)
    && (forall i :: 0 <= i < |rs| ==> HoldsOne(r, rs[i]))
  }

  ghost predicate HoldsOne<V>(r: Registry<V>, reg: Registration<V>) {
    && reg.name in r.handlers && r.handlers[reg.name] == reg.handler
    && (reg.name in r.checks <==> reg.check.Some?)
    && (reg.check.Some? ==> r.checks[reg.name] == reg.check.value)
  }

  lemma RegisterKeeps<V>(r: Registry<V>, reg: Registration<V>, other: Registration<V>)
    requires reg.name !in r.handlers && (forall name :: name in r.checks ==> name in r.handlers)
    requires other == reg || (HoldsOne(r, other) && other.name != reg.name)
    ensures HoldsOne(Register(r, reg.name, reg.handler, reg.check).value, other)
  {}

  lemma RegisterHolds<V>(r: Registry<V>, rs: seq<Registration<V>>, reg: Registration<V>)
    requires DistinctNames(rs) && Holds(r, rs)
    ensures var r' := Register(r, reg.name, reg.handler, reg.check);
      if r'.Some? then DistinctNames(rs + [reg]) && Holds(r'.value, rs + [reg]) else !DistinctNames(rs + [reg])
  {
    hide HoldsOne;
    var all := rs + [reg];
    assert all[|rs|] == reg;
    if reg.name in r.handlers {
      assert Submitted(rs, reg.name);
      var i :| 0 <= i < |rs| && rs[i].name == reg.name;
      assert all[i].name == all[|rs|].name;
    } else {
      var r' := Register(r, reg.name, reg.handler, reg.check).value;
      forall i | 0 <= i < |rs| ensures HoldsOne(r', rs[i]) && rs[i].name != reg.name {
        assert HoldsOne(r, rs[i]) && Submitted(rs, rs[i].name);
        RegisterKeeps(r, reg, rs[i]);
      }
      RegisterKeeps(r, reg, reg);
      assert forall i :: 0 <= i < |all| ==> all[i] == if i < |rs| then rs[i] else reg;
      forall name ensures name in r'.handlers <==> Submitted(all, name) {
        if Submitted(rs, name) {
          var i :| 0 <= i < |rs| && rs[i].name == name;
          assert all[i].name == name;
        }
        if Submitted(all, name) && name != reg.name {
          var i :| 0 <= i < |all| && all[i].name == name;
          assert rs[i].name == name;
        }
      }
    }
  }

  lemma DuplicateStays<V>(rs: seq<Registration<V>>, i: nat)
    requires i <= |rs| && !DistinctNames(rs[..i])
    ensures !DistinctNames(rs)
  {}

  function PrimesOf<V>(rs: seq<Registration<V>>): seq<string> {
    if rs == [] then []
    else
      var before := PrimesOf(rs[..|rs| - 1]);
      if rs[|rs| - 1].prime.Some? then before + [rs[|rs| - 1].prime.value] else before
  }

  /** `from_inventory`: a duplicate name stops start-up, and otherwise every submission is in, primes in order. */
  method FromInventory<V>(rs: seq<Registration<V>>) returns (r: Option<Registry<V>>)
    ensures r.Some? <==> DistinctNames(rs)
    ensures r.Some? ==> Holds(r.value, rs) && r.value.primes == PrimesOf(rs)
  {
    var registry: Registry<V> := EmptyRegistry();
    hide Holds, DistinctNames, PrimesOf;
    NothingHeld<V>();
    for i := 0 to |rs|
      invariant DistinctNames(rs[..i]) && Holds(registry, rs[..i]) && registry.primes == PrimesOf(rs[..i])
    {
      assert rs[..i + 1] == rs[..i] + [rs[i]];
      RegisterHolds(registry, rs[..i], rs[i]);
      PrimesOfSnoc(rs[..i], rs[i]);
      var added := Register(registry, rs[i].name, rs[i].handler, rs[i].check);
      if added.None? {
        DuplicateStays(rs, i + 1);
        return None;
      }
      registry := added.value;
      if rs[i].prime.Some? {
        MorePrimes(registry, rs[..i + 1], registry.primes + [rs[i].prime.value]);
        registry := registry.(primes := registry.primes + [rs[i].prime.value]);
      }
    }
    assert rs[..|rs|] == rs;
    return Some(registry);
  }

  lemma NothingHeld<V>()
    ensures DistinctNames<V>([]) && Holds<V>(EmptyRegistry(), []) && PrimesOf<V>([]) == []
  {}

  lemma PrimesOfSnoc<V>(rs: seq<Registration<V>>, reg: Registration<V>)
    ensures PrimesOf(rs + [reg]) == if reg.prime.Some? then PrimesOf(rs) + [reg.prime.value] else PrimesOf(rs)
  {
    assert (rs + [reg])[..|rs|] == rs;
  }

  lemma MorePrimes<V>(r: Registry<V>, rs: seq<Registration<V>>, primes: seq<string>)
    requires Holds(r, rs)
    ensures Holds(r.(primes := primes), rs)
  {
    forall i | 0 <= i < |rs| ensures HoldsOne(r.(primes := primes), rs[i]) {
      assert HoldsOne(r, rs[i]);
    }
  }

  // ---- the process ----

  datatype Line = Text(line: string) | ReadError

  /** The lines read before the first read error. */
  function Readable(lines: seq<Line>): seq<string> {
    if lines == [] || lines[0].ReadError? then [] else [lines[0].line] + Readable(lines[1..])
  }

  /** What is on the output and the exit code after printing, when the one write succeeds or fails. */
  function Emitted(out: seq<Envelope>, printed: seq<Envelope>, code: int, written: bool): (seq<Envelope>, int) {
    if printed == [] || written then (out + printed, code) else (out, 1)
  }

  class Process<!V> {
    const setup: Setup<V>
    var cells: map<string, Cell<V>>
    var tries: map<string, nat>
    var out: seq<Envelope>

    function State(): World<V>
      reads this
    {
      World(cells, tries)
    }

    constructor (setup: Setup<V>)
      ensures this.setup == setup && State() == World(map[], map[]) && out == []
    {
      this.setup := setup;
      cells, tries, out := map[], map[], [];
    }

    /** The generated accessor: a kept instance is returned, a success is kept, a failure is not. */
    method Force(c: string) returns (access: Access)
      modifies this`cells, this`tries
      ensures (State(), access) == Accessor(setup, old(State()), c)
      ensures access.Ready? ==> c in cells
    {
      if c in cells {
        return Ready;
      }
      var n := Tries(State(), c);
      tries := tries[c := n + 1];
      match setup.enter(c, n)
      case Entered(v) =>
        cells := cells[c := Cell(n, v)];
        return Ready;
      case Refused(m) => return NotReady(Function(m, None));
      case Exploded(m, b) => return NotReady(Panic(m, b));
    }

    method Handle(h: Handler<V>, input: Bytes) returns (r: Result<Bytes, RunnerError>)
      modifies this`cells, this`tries
      ensures (State(), r) == RunHandler(setup, old(State()), h, input)
    {
      var bad := h.decode(input);
      if bad.Some? {
        return Err(Decode(bad.value));
      }
      match h
      case Free(_, body) => return Finish(body(input));
      case Method(_, c, method_) =>
        var access := Force(c);
        match access {
          case NotReady(Panic(m, b)) => return Err(Panic(m, b));
          case NotReady(e) => return Err(Function(e.ToText(), None));
          case Ready =>
            var (ending, state) := method_(cells[c].state, input);
            cells := cells[c := cells[c].(state := state)];
            return Finish(ending);
        }
    }

    /** `serve_one`: every way out writes exactly one line. */
    method ServeOne(req: Request)
      modifies this
      ensures var (w, e) := Answer(setup, old(State()), req.entrypoint, setup.wire.utf8(req.input));
        State() == w && out == old(out) + [e]
    {
      var raw := setup.wire.utf8(req.input);
      var top := setup.wire.json(raw);
      if top.Err? {
        out := out + [Decode(top.error).ToEnvelope()];
        return;
      }
      if req.entrypoint !in setup.reg.handlers {
        out := out + [UnknownEntrypoint(setup.wire.unknown(setup.reg.handlers.Keys, req.entrypoint)).ToEnvelope()];
        return;
      }
      var r := Handle(setup.reg.handlers[req.entrypoint], raw);
      match r
      case Ok(bytes) =>
        var value := setup.wire.json(bytes);
        if value.Err? {
          out := out + [Encode("handler output was not valid JSON: " + value.error).ToEnvelope()];
          return;
        }
        out := out + [Success(value.value)];
      case Err(e) =>
        out := out + [e.ToEnvelope()];
    }

    /** `serve_prime`: every hook runs; a failing one is counted and reported, never fatal. */
    method ServePrime()
      modifies this
      ensures var (w, outcomes) := Primes(setup, old(State()), setup.reg.primes);
        State() == w && out == old(out) + [Ack(outcomes)]
    {
      hide Accessor, Primes, Messages, CountPrimed;
      NoPrimes(setup, State());
      var primedOk := 0;
      var errors: seq<string> := [];
      ghost var outcomes: seq<Option<string>> := [];
      var primes := setup.reg.primes;
      for i := 0 to |primes|
        invariant (State(), outcomes) == Primes(setup, old(State()), primes[..i])
        invariant primedOk == CountPrimed(outcomes) && errors == Messages(outcomes)
        invariant out == old(out)
      {
        assert primes[..i + 1] == primes[..i] + [primes[i]];
        PrimesSnoc(setup, old(State()), primes[..i], primes[i]);
        var access := Force(primes[i]);
        AckSnoc(outcomes, PrimeError(access));
        outcomes := outcomes + [PrimeError(access)];
        match access
        case Ready => primedOk := primedOk + 1;
        case NotReady(Panic(_, _)) => errors := errors + ["snapshot prime panicked"];
        case NotReady(e) => errors := errors + [e.ToText()];
      }
      assert primes[..|primes|] == primes;
      out := out + [PrimeAck(primedOk, |errors|, errors)];
    }

    /** The loop body of the serve loop for a line that is not blank: the optional `kind` first, then the request. */
    method ServeLine(line: string)
      requires !setup.wire.blank(line)
      modifies this
      ensures var (w, e) := Reply(setup, old(State()), line);
        State() == w && out == old(out) + [e]
    {
      hide Answer, Primes, Ack;
      var kind := setup.wire.kind(line);
      if kind.Some? {
        if kind.value == "prime" {
          ServePrime();
          return;
        } else if kind.value != "request" {
          out := out + [Decode("unknown serve frame kind: " + kind.value).ToEnvelope()];
          return;
        }
      }
      var frame := setup.wire.frame(line);
      if frame.Err? {
        out := out + [Decode("malformed serve request frame: " + frame.error).ToEnvelope()];
        return;
      }
      ServeOne(frame.value);
    }

    /** `run_serve_with_io`: no answer ends the loop; only a failed read does, with exit code 1. */
    method RunServe(lines: seq<Line>) returns (code: int)
      modifies this
      ensures code == (if |Readable(lines)| == |lines| then 0 else 1)
      ensures var (w, replies) := Serve(setup, old(State()), Readable(lines));
        State() == w && out == old(out) + replies
    {
      hide Reply;
      ghost var served: seq<string> := [];
      assert out == old(out) + [];
      for i := 0 to |lines|
        invariant served + Readable(lines[i..]) == Readable(lines) && |served| == i
        invariant var (w, replies) := Serve(setup, old(State()), served); State() == w && out == old(out) + replies
      {
        assert lines[i..][1..] == lines[i + 1..];
        if lines[i].ReadError? {
          assert served == Readable(lines);
          return 1;
        }
        var line := lines[i].line;
        ServeSnoc(setup, old(State()), served, line);
        assert served + Readable(lines[i..]) == (served + [line]) + Readable(lines[i + 1..]);
        ghost var soFar := Serve(setup, old(State()), served).1;
        served := served + [line];
        if setup.wire.blank(line) {
          continue;
        }
        ghost var reply := Reply(setup, State(), line).1;
        assert (old(out) + soFar) + [reply] == old(out) + (soFar + [reply]);
        ServeLine(line);
      }
      assert served == Readable(lines);
      return 0;
    }

    /** `emit`: a line that cannot be written turns the exit code into 1. */
    method Emit(e: Envelope, code: int, written: bool) returns (r: int)
      modifies this`out
      ensures (out, r) == Emitted(old(out), [e], code, written)
    {
      if !written {
        assert old(out) + [] == old(out);
        return 1;
      }
      out := out + [e];
      return code;
    }

    /** `run_check_input_inner`. */
    method CheckInputInner(entrypoint: string, raw: Bytes, written: bool) returns (code: int)
      modifies this`out
      ensures var e := CheckInput(setup, entrypoint, raw); (out, code) == Emitted(old(out), [e], ExitCode(e), written)
    {
      var top := setup.wire.json(raw);
      if top.Err? {
        code := Emit(Decode(top.error).ToEnvelope(), 1, written);
        return;
      }
      if entrypoint !in setup.reg.handlers {
        code := Emit(UnknownEntrypoint(setup.wire.unknown(setup.reg.handlers.Keys, entrypoint)).ToEnvelope(), 1, written);
        return;
      }
      if entrypoint in setup.reg.checks {
        var bad := setup.reg.checks[entrypoint](raw);
        if bad.Some? {
          code := Emit(Decode(bad.value).ToEnvelope(), 1, written);
          return;
        }
        code := Emit(Checked, 0, written);
        return;
      }
      code := Emit(NotChecked, 0, written);
      return;
    }

    /** `run_cli_with_args`: a bad command line or an unreadable input prints nothing and exits 1. */
    method RunCliWithArgs(argv: seq<string>, written: bool) returns (code: int)
      modifies this
      ensures var (w, printed, exit) := RunCli(setup, old(State()), argv);
        State() == w && (out, code) == Emitted(old(out), printed, exit, written)
    {
      assert out + [] == out;
      var check := argv != [] && argv[0] == "--check-input";
      if argv != [] && argv[0] == "--web-server" {
        return setup.wire.webServer(argv[1..]);
      }
      var parsed := ParseArgs(if check then argv[1..] else argv);
      if parsed.Err? {
        return 1;
      }
      ParsedIs(if check then argv[1..] else argv, parsed.value);
      var input := ReadInput(setup.wire, parsed.value.input);
      if input.Err? {
        return 1;
      }
      if check {
        code := CheckInputInner(parsed.value.entrypoint, input.value, written);
        return;
      }
      var raw := input.value;
      var top := setup.wire.json(raw);
      if top.Err? {
        code := Emit(Decode(top.error).ToEnvelope(), 1, written);
        return;
      }
      if parsed.value.entrypoint !in setup.reg.handlers {
        code := Emit(UnknownEntrypoint(setup.wire.unknown(setup.reg.handlers.Keys, parsed.value.entrypoint)).ToEnvelope(), 1, written);
        return;
      }
      var r := Handle(setup.reg.handlers[parsed.value.entrypoint], raw);
      match r
      case Ok(bytes) =>
        var value := setup.wire.json(bytes);
        if value.Err? {
          code := Emit(Encode("handler output was not valid JSON: " + value.error).ToEnvelope(), 1, written);
          return;
        }
        code := Emit(Success(value.value), 0, written);
        return;
      case Err(e) =>
        code := Emit(e.ToEnvelope(), 1, written);
        return;
    }
  }

  lemma NoPrimes<V>(s: Setup<V>, w: World<V>)
    ensures Primes(s, w, []) == (w, []) && Messages([]) == [] && CountPrimed([]) == 0
  {}

  lemma ParsedIs(argv: seq<string>, a: Args)
    requires Renders(argv, a)
    ensures Parsed(argv) == Some(a)
  {
    RendersAtMostOne(argv, Parsed(argv).value, a);
  }
}
