/** Where the describe cache meets the runner: validating an input with the runner a describe returned. */
module LocalValidation {
  import opened Wrappers
  import opened ByteStrings
  import opened SourceTree
  import opened DescribeCache
  import opened DescribeCli
  import opened KeyFraming
  import opened Runner
  import opened RunnerLaws

  /** What a binary does when it is run. */
  type Program<!V> = DescribeCli.Runner -> LocalRunner<V>

  /** What validating an input says after a describe: nothing is run when the describe returned no runner. */
  function AfterDescribe<V>(program: Program<V>, o: Outcome, entrypoint: string, input: string): Verdict
    requires o.Described?
  {
    if o.runner.None? then Accept else Validated(program(o.runner.value), entrypoint, input)
  }

  /**
   * After any run, an input that the described source's own runner accepts is rejected exactly when the describe hits,
   * and the last local build of the package left another runner that rejects it.
   */
  lemma WarmDescribeRejectsIff<V>(t: Tools, program: Program<V>, events: seq<Event>, w: Workspace, p: Bytes, io: Io,
      entrypoint: string, input: string)
    requires LocalDescribe(t, Run(t, CLEAN, events), w, p, io).1.Described? && t.local(w, p).Ran?
    requires Validated(program(t.local(w, p).artifact), entrypoint, input) == Accept
    ensures var d := Run(t, CLEAN, events);
      AfterDescribe(program, LocalDescribe(t, d, w, p, io).1, entrypoint, input).Reject? <==>
        && Loaded(t, d, w, p).Some?
        && LastBuilt(t, events, p).Some?
        && Validated(program(LastBuilt(t, events, p).value), entrypoint, input).Reject?
  {
    hide Loaded, Stored, Run, LastBuilt, Validated;
    PinIsLastBuilt(t, events, p);
  }

  // ---- an undone edit ----

  /** A runner of one entrypoint, whose input type fits or does not. */
  function TypedSetup(decodes: bool): Setup<bool> {
    var decode: Decoder := b => if decodes then None else Some("invalid type");
    Setup(
      Registry(map["f" := Free(decode, b => Returns(Ok(b)))], map["f" := decode], []),
      Wire(b => Ok(b), _ => None, _ => Err("frame"), _ => false, _ => [], (_, _) => "unknown", _ => Err("file"), Err("stdin"), _ => 0),
      (_, _) => Refused("no class"))
  }

  /** `[1]` is the runner of the described source, `[2]` that of the edit. */
  function TypedProgram(r: DescribeCli.Runner): LocalRunner<bool> { Runs(TypedSetup(r == [1])) }

  /**
   * Describe, edit, describe, undo the edit, describe: the answer is the first source's manifest, its own runner decodes
   * the input and runs it, and validation still stops the call.
   */
  lemma UndoneEditRejectsDecodableInput(p: Bytes, io: Io, input: string)
    requires Sized(p) && io.write.Whole? && io.pinning.Linked?
    ensures var t, a, b := LockTools(), Locked([1]), Locked([2]);
      var o := LocalDescribe(t, Run(t, CLEAN, [Local(a, p, io), Local(b, p, io)]), a, p, io).1;
      && o.Described? && Some(o.manifest) == ManifestAt(t, a, p)
      && AfterDescribe(TypedProgram, o, "f", input) == Reject("invalid type")
      && Companions(TypedSetup(true).reg)
      && CheckInput(TypedSetup(true), "f", []) == Checked
      && Answer(TypedSetup(true), World(map[], map[]), "f", []).1.Success?
  {
    hide LocalDescribe, Run, HexOf, Assumed, TypedSetup, TypedProgram, Validated, CheckInput, Answer, Companions, ManifestAt;
    RunnerCanBeStale(p, io);
    TypedVerdicts(input);
  }

  lemma TypedVerdicts(input: string)
    ensures Validated(TypedProgram([2]), "f", input) == Reject("invalid type")
    ensures Companions(TypedSetup(true).reg) && CheckInput(TypedSetup(true), "f", []) == Checked
    ensures Answer(TypedSetup(true), World(map[], map[]), "f", []).1.Success?
  {}
}
