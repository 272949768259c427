/** Whole-run laws of the runner: its code paths agree, priming cannot be seen, and a class enters once. */
module RunnerLaws {
  import opened Wrappers
  import opened ByteStrings
  import opened RunnerArgs
  import opened Runner
  import opened RunnerProcess

  // ---- serve and one-shot ----

  /** A served request and a one-shot invocation with the same name and input, from the same class state, agree. */
  lemma ServeEqualsOneShot<V>(s: Setup<V>, w: World<V>, line: string)
    requires Classify(s.wire, line).Call?
    ensures var r := Classify(s.wire, line).request;
      var (w', e) := Reply(s, w, line);
      RunCli(s, w, ["--entrypoint", r.entrypoint, "--input-json", r.input]) == (w', [e], ExitCode(e))
  {
    var r := Classify(s.wire, line).request;
    var argv := ["--entrypoint", r.entrypoint, "--input-json", r.input];
    assert Renders(argv, Args(r.entrypoint, Json(r.input)));
    ParsedIs(argv, Args(r.entrypoint, Json(r.input)));
  }

  // ---- checking and running ----

  /** Every checker decodes exactly as its handler does, as both are built from one function. */
  ghost predicate Companions<V>(reg: Registry<V>) {
    forall name :: name in reg.checks ==>
      name in reg.handlers && forall b: Bytes :: reg.checks[name](b) == reg.handlers[name].decode(b)
  }

  /**
   * A failed check is the very envelope the run would emit, before any body or `enter` runs; a passed check means the
   * run gets past decoding; and a check is skipped exactly for a known entrypoint without a checker.
   */
  lemma CheckAgreesWithRun<V>(s: Setup<V>, w: World<V>, entrypoint: string, input: Bytes)
    requires Companions(s.reg)
    ensures var check := CheckInput(s, entrypoint, input);
      var (w', answer) := Answer(s, w, entrypoint, input);
      var undecoded := answer.Failure? && (answer.kind == "decode_error" || answer.kind == "unknown_entrypoint");
      && (check.Failure? ==> answer == check && w' == w && undecoded)
      && (check == Checked ==> !undecoded)
      && (check == NotChecked <==>
            s.wire.json(input).Ok? && entrypoint in s.reg.handlers && entrypoint !in s.reg.checks)
      && (check.Failure? || check == Checked || check == NotChecked)
  {}

  /** The two command lines: `--check-input` in front of the same arguments. */
  lemma CheckLineAgreesWithRunLine<V>(s: Setup<V>, w: World<V>, argv: seq<string>)
    requires Companions(s.reg) && argv != [] && argv[0] != "--check-input" && argv[0] != "--web-server"
    ensures var (w1, printed1, code1) := RunCli(s, w, ["--check-input"] + argv);
      var (w2, printed2, code2) := RunCli(s, w, argv);
      && w1 == w
      && (code1 == 1 ==> (w2, printed2, code2) == (w, printed1, 1))
  {
    assert (["--check-input"] + argv)[1..] == argv;
    match Parsed(argv)
    case None =>
    case Some(a) =>
      match ReadInput(s.wire, a.input)
      case Err(_) =>
      case Ok(raw) => CheckAgreesWithRun(s, w, a.entrypoint, raw);
  }

  /** The macro builds a checker from the function it builds the handler from; such submissions give such a registry. */
  lemma InventoryHasCompanions<V>(rs: seq<Registration<V>>, reg: Registry<V>)
    requires Holds(reg, rs)
    requires forall i, b: Bytes :: 0 <= i < |rs| && rs[i].check.Some? ==> rs[i].check.value(b) == rs[i].handler.decode(b)
    ensures Companions(reg)
  {
    forall name | name in reg.checks
      ensures name in reg.handlers && forall b: Bytes :: reg.checks[name](b) == reg.handlers[name].decode(b)
    {
      assert Submitted(rs, name);
      var i :| 0 <= i < |rs| && rs[i].name == name;
      assert HoldsOne(reg, rs[i]);
      assert reg.checks[name] == rs[i].check.value && reg.handlers[name] == rs[i].handler;
    }
  }

  datatype Verdict = Accept | Reject(detail: string)

  /** The binary at the path the describe returned: none that starts, one that exits without an envelope, or a runner. */
  datatype LocalRunner<!V> = NotSpawned | Silent(code: int, text: string) | Runs(setup: Setup<V>)

  /** Only a runner that ran, failed, and did not just miss the entrypoint can stop the call. */
  function Validated<V>(runner: LocalRunner<V>, entrypoint: string, input: string): Verdict {
    match runner
    case NotSpawned => Accept
    case Silent(code, text) => if code == 0 then Accept else Reject(text)
    case Runs(s) =>
      var check := CheckInput(s, entrypoint, s.wire.utf8(input));
      if check.Failure? && check.kind != "unknown_entrypoint" then Reject(check.message) else Accept
  }

  /** `validate_input_locally`: render the arguments, run the check, key off the exit code and the envelope's kind. */
  method ValidateInputLocally<V>(runner: LocalRunner<V>, entrypoint: string, input: string) returns (v: Verdict)
    ensures v == Validated(runner, entrypoint, input)
  {
    match runner
    case NotSpawned => return Accept;
    case Silent(code, text) =>
      if code == 0 {
        return Accept;
      }
      return Reject(text);
    case Runs(s) =>
      var argv := ["--check-input", "--entrypoint", entrypoint, "--input-json", input];
      var p := new Process(s);
      ParsedIs(argv[1..], Args(entrypoint, Json(input)));
      var code := p.RunCliWithArgs(argv, true);
      if code == 0 {
        return Accept;
      }
      var envelope := p.out[|p.out| - 1];
      if envelope.kind == "unknown_entrypoint" {
        return Accept;
      }
      return Reject(envelope.message);
  }

  /** So with a runner of the same registry, an input is rejected only if the run would answer that same decode error. */
  lemma RejectedInputsDoNotDecode<V>(s: Setup<V>, w: World<V>, entrypoint: string, input: string)
    requires Companions(s.reg)
    ensures var raw := s.wire.utf8(input);
      var check := CheckInput(s, entrypoint, raw);
      var (w', answer) := Answer(s, w, entrypoint, raw);
      && (check.Failure? && check.kind != "unknown_entrypoint" ==> answer == Decode(check.message).ToEnvelope() && w' == w)
      && (answer.Failure? && answer.kind == "decode_error" && check != NotChecked ==>
            check.Failure? && check.kind != "unknown_entrypoint")
  {
    CheckAgreesWithRun(s, w, entrypoint, s.wire.utf8(input));
  }

  // ---- entering ----

  /** Attempts at a class go on until the first success, whose value is the instance, and then stop. */
  ghost predicate EnteredOnce<V>(s: Setup<V>, w: World<V>, c: string) {
    if c in w.cells then
      && Tries(w, c) == w.cells[c].made + 1
      && s.enter(c, w.cells[c].made).Entered?
      && forall n: nat :: n < w.cells[c].made ==> !s.enter(c, n).Entered?
    else forall n: nat :: n < Tries(w, c) ==> !s.enter(c, n).Entered?
  }

  /** An instance once made is kept: no later attempt, no other instance. */
  ghost predicate Kept<V>(w: World<V>, w': World<V>, c: string) {
    c in w.cells ==> c in w'.cells && w'.cells[c].made == w.cells[c].made && Tries(w', c) == Tries(w, c)
  }

  lemma AccessorEnters<V>(s: Setup<V>, w: World<V>, forced: string, c: string)
    requires EnteredOnce(s, w, c)
    ensures EnteredOnce(s, Accessor(s, w, forced).0, c) && Kept(w, Accessor(s, w, forced).0, c)
  {}

  lemma RunEnters<V>(s: Setup<V>, w: World<V>, h: Handler<V>, input: Bytes, c: string)
    requires EnteredOnce(s, w, c)
    ensures EnteredOnce(s, RunHandler(s, w, h, input).0, c) && Kept(w, RunHandler(s, w, h, input).0, c)
  {
    hide Accessor, EnteredOnce;
    if h.Method? && h.decode(input).None? {
      AccessorEnters(s, w, h.class_, c);
      AccessorReady(s, w, h.class_);
      SameHistory(s, Accessor(s, w, h.class_).0, RunHandler(s, w, h, input).0, c);
    }
  }

  lemma AnswerEnters<V>(s: Setup<V>, w: World<V>, entrypoint: string, input: Bytes, c: string)
    requires EnteredOnce(s, w, c)
    ensures EnteredOnce(s, Answer(s, w, entrypoint, input).0, c) && Kept(w, Answer(s, w, entrypoint, input).0, c)
  {
    hide RunHandler, EnteredOnce;
    if entrypoint in s.reg.handlers {
      RunEnters(s, w, s.reg.handlers[entrypoint], input, c);
    }
  }

  lemma SameHistory<V>(s: Setup<V>, w: World<V>, w': World<V>, c: string)
    requires EnteredOnce(s, w, c) && w'.tries == w.tries && (c in w'.cells <==> c in w.cells)
    requires c in w.cells ==> w'.cells[c].made == w.cells[c].made
    ensures EnteredOnce(s, w', c)
  {}

  lemma AccessorReady<V>(s: Setup<V>, w: World<V>, c: string)
    ensures Accessor(s, w, c).1.Ready? ==> c in Accessor(s, w, c).0.cells
  {}

  lemma {:induction false} PrimesEnter<V>(s: Setup<V>, w: World<V>, classes: seq<string>, c: string)
    requires EnteredOnce(s, w, c)
    ensures EnteredOnce(s, Primes(s, w, classes).0, c) && Kept(w, Primes(s, w, classes).0, c)
  {
    hide Accessor, EnteredOnce;
    if classes != [] {
      var init := classes[..|classes| - 1];
      PrimesEnter(s, w, init, c);
      AccessorEnters(s, Primes(s, w, init).0, classes[|classes| - 1], c);
    }
  }

  /** Over every run of requests and primes, each class is attempted until its first success and never again. */
  lemma {:induction false} EnterSucceedsAtMostOnce<V>(s: Setup<V>, w: World<V>, lines: seq<string>, c: string)
    requires EnteredOnce(s, w, c)
    ensures EnteredOnce(s, Serve(s, w, lines).0, c) && Kept(w, Serve(s, w, lines).0, c)
  {
    hide Accessor, EnteredOnce, Answer, Primes;
    if lines != [] {
      var init, line := lines[..|lines| - 1], lines[|lines| - 1];
      var w1 := Serve(s, w, init).0;
      EnterSucceedsAtMostOnce(s, w, init, c);
      PrimesEnter(s, w1, s.reg.primes, c);
      if Classify(s.wire, line).Call? {
        var r := Classify(s.wire, line).request;
        AnswerEnters(s, w1, r.entrypoint, s.wire.utf8(r.input), c);
      }
    }
  }

  // ---- early priming ----

  /** Each class's `enter` ends the same way however often it is tried. */
  ghost predicate FixedEnter<V>(s: Setup<V>) {
    forall c, n: nat :: s.enter(c, n) == s.enter(c, 0)
  }

  /**
   * `eager` may have instances `lazy` has not built yet, fresh from their `enter`; every instance `lazy` has, `eager`
   * has in the same state.
   */
  ghost predicate Ahead<V>(s: Setup<V>, lazy: World<V>, eager: World<V>) {
    && (forall c :: c in lazy.cells ==> c in eager.cells && eager.cells[c].state == lazy.cells[c].state)
    && (forall c :: c in eager.cells && c !in lazy.cells ==> s.enter(c, 0) == Entered(eager.cells[c].state))
  }

  lemma AccessorAhead<V>(s: Setup<V>, lazy: World<V>, eager: World<V>, c: string)
    requires FixedEnter(s) && Ahead(s, lazy, eager)
    ensures Ahead(s, lazy, Accessor(s, eager, c).0)
    ensures Ahead(s, Accessor(s, lazy, c).0, Accessor(s, eager, c).0)
    ensures Accessor(s, lazy, c).1 == Accessor(s, eager, c).1
    ensures Accessor(s, lazy, c).1.Ready? ==> c in Accessor(s, lazy, c).0.cells && c in Accessor(s, eager, c).0.cells
  {
    assert s.enter(c, Tries(lazy, c)) == s.enter(c, 0) == s.enter(c, Tries(eager, c));
  }

  lemma MethodAhead<V>(s: Setup<V>, lazy: World<V>, eager: World<V>, c: string, state: V)
    requires Ahead(s, lazy, eager) && c in lazy.cells && c in eager.cells
    ensures Ahead(s, lazy.(cells := lazy.cells[c := lazy.cells[c].(state := state)]),
                  eager.(cells := eager.cells[c := eager.cells[c].(state := state)]))
  {}

  lemma RunAhead<V>(s: Setup<V>, lazy: World<V>, eager: World<V>, h: Handler<V>, input: Bytes)
    requires FixedEnter(s) && Ahead(s, lazy, eager)
    ensures Ahead(s, RunHandler(s, lazy, h, input).0, RunHandler(s, eager, h, input).0)
    ensures RunHandler(s, lazy, h, input).1 == RunHandler(s, eager, h, input).1
  {
    if h.Method? {
      var (w1, access) := Accessor(s, lazy, h.class_);
      var w2 := Accessor(s, eager, h.class_).0;
      AccessorAhead(s, lazy, eager, h.class_);
      hide FixedEnter, Accessor;
      if access.Ready? {
        assert w1.cells[h.class_].state == w2.cells[h.class_].state;
        MethodAhead(s, w1, w2, h.class_, h.method_(w1.cells[h.class_].state, input).1);
      }
      hide Ahead;
    }
  }

  /** A request is answered alike, and leaves the eager process ahead in the same way. */
  lemma AnswerAhead<V>(s: Setup<V>, lazy: World<V>, eager: World<V>, entrypoint: string, input: Bytes)
    requires FixedEnter(s) && Ahead(s, lazy, eager)
    ensures Ahead(s, Answer(s, lazy, entrypoint, input).0, Answer(s, eager, entrypoint, input).0)
    ensures Answer(s, lazy, entrypoint, input).1 == Answer(s, eager, entrypoint, input).1
  {
    hide Ahead, FixedEnter, RunHandler;
    if entrypoint in s.reg.handlers {
      RunAhead(s, lazy, eager, s.reg.handlers[entrypoint], input);
    }
  }

  lemma {:induction false} PrimesAhead<V>(s: Setup<V>, lazy: World<V>, eager: World<V>, classes: seq<string>)
    requires FixedEnter(s) && Ahead(s, lazy, eager)
    ensures Ahead(s, lazy, Primes(s, eager, classes).0)
  {
    hide Accessor, Ahead, FixedEnter;
    if classes != [] {
      var init := classes[..|classes| - 1];
      PrimesAhead(s, lazy, eager, init);
      AccessorAhead(s, lazy, Primes(s, eager, init).0, classes[|classes| - 1]);
    }
  }

  function WithoutPrimes(wire: Wire, lines: seq<string>): seq<string> {
    if lines == [] then []
    else
      var init, line := lines[..|lines| - 1], lines[|lines| - 1];
      if Classify(wire, line) == Prime then WithoutPrimes(wire, init) else WithoutPrimes(wire, init) + [line]
  }

  function Requests(out: seq<Envelope>): seq<Envelope> {
    if out == [] then []
    else
      var init, e := out[..|out| - 1], out[|out| - 1];
      if e.PrimeAck? then Requests(init) else Requests(init) + [e]
  }

  lemma RequestsSnoc(init: seq<Envelope>, e: Envelope)
    ensures Requests(init + [e]) == if e.PrimeAck? then Requests(init) else Requests(init) + [e]
  {
    assert (init + [e])[..|init|] == init;
  }

  lemma ReplyAhead<V>(s: Setup<V>, lazy: World<V>, eager: World<V>, line: string)
    requires FixedEnter(s) && Ahead(s, lazy, eager) && !s.wire.blank(line)
    ensures Reply(s, eager, line).1.PrimeAck? <==> Classify(s.wire, line) == Prime
    ensures Classify(s.wire, line) == Prime ==> Ahead(s, lazy, Reply(s, eager, line).0)
    ensures Classify(s.wire, line) != Prime ==>
      && Ahead(s, Reply(s, lazy, line).0, Reply(s, eager, line).0)
      && Reply(s, lazy, line).1 == Reply(s, eager, line).1
  {
    hide Ahead, FixedEnter, RunHandler, Primes;
    PrimesAhead(s, lazy, eager, s.reg.primes);
    if Classify(s.wire, line).Call? {
      var r := Classify(s.wire, line).request;
      AnswerAhead(s, lazy, eager, r.entrypoint, s.wire.utf8(r.input));
    }
  }

  /**
   * Erasing every prime frame leaves the request envelopes as they are, in order, and every instance the erased run
   * has built in the same state: callers cannot tell whether a class was primed.
   */
  lemma {:induction false} PrimingIsInvisible<V>(s: Setup<V>, w: World<V>, lines: seq<string>)
    requires FixedEnter(s)
    ensures var (eager, out) := Serve(s, w, lines);
      var (lazy, out') := Serve(s, w, WithoutPrimes(s.wire, lines));
      out' == Requests(out) && Ahead(s, lazy, eager)
  {
    hide FixedEnter, Reply, Classify;
    if lines == [] {
    } else {
      var init, line := lines[..|lines| - 1], lines[|lines| - 1];
      assert lines == init + [line];
      PrimingIsInvisible(s, w, init);
      hide Ahead;
      ServeSnoc(s, w, init, line);
      ServeSnoc(s, w, WithoutPrimes(s.wire, init), line);
      if s.wire.blank(line) {
        BlankIsNoPrime(s.wire, line);
      } else {
        var (eager, out) := Serve(s, w, init);
        ReplyAhead(s, Serve(s, w, WithoutPrimes(s.wire, init)).0, eager, line);
        RequestsSnoc(out, Reply(s, eager, line).1);
      }
    }
  }

  lemma BlankIsNoPrime(wire: Wire, line: string)
    requires wire.blank(line)
    ensures Classify(wire, line) == Blank
  {}
}
