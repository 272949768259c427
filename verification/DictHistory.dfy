/** What a live dict holds, told from the history of its writes alone, in every interleaving of the servicer's clients. */
module DictHistory {
  import opened Wrappers
  import opened ByteStrings
  import opened ObjectStoreSpec
  import opened Servicer

  /** What a dict holds under a key, if anything. */
  function Under(d: map<Bytes, Bytes>, key: Bytes): Option<Bytes> { if key in d then Some(d[key]) else None }

  /** One key's share of a batch: its writes in order, and where only absent keys are written, a write that finds none. */
  function Wrote(held: Option<Bytes>, entries: seq<Entry>, ifNotExists: bool, key: Bytes): Option<Bytes> {
    if entries == [] then held
    else
      var before, last := Wrote(held, entries[..|entries| - 1], ifNotExists, key), entries[|entries| - 1];
      if last.0 != key || (ifNotExists && before.Some?) then before else Some(last.1)
  }

  /** What one step of any client makes of what a live dict holds under a key. */
  function HeldAfter(held: Option<Bytes>, step: Step, id: string, key: Bytes): Option<Bytes> {
    match step
    case Update(i, entries, ifNotExists) => if i == id then Wrote(held, entries, ifNotExists, key) else held
    case Pop(i, k) => if i == id && k == key then None else held
    case ClearDict(i) => if i == id then None else held
    case _ => held
  }

  /** What was written under the key of dict `id` since its creation, its last clear and the key's last pop. */
  function HeldUnder(run: seq<Step>, id: string, key: Bytes): Option<Bytes> {
    if run == [] then None
    else
      var before, step := run[..|run| - 1], run[|run| - 1];
      if id in Live(Exec(before), DictKind) then HeldAfter(HeldUnder(before, id, key), step, id, key) else None
  }

  /** A batch treats each key on its own. */
  lemma {:induction false} BatchByKey(d: map<Bytes, Bytes>, entries: seq<Entry>, ifNotExists: bool, key: Bytes)
    ensures Under(BatchUpdate(d, entries, ifNotExists).0, key) == Wrote(Under(d, key), entries, ifNotExists, key)
  {
    if entries != [] {
      BatchByKey(d, entries[..|entries| - 1], ifNotExists, key);
    }
  }

  /** After an update of a live dict every key means what the batch means there, and no other object has changed. */
  lemma UpdateMeans(s: Server, id: string, entries: seq<Entry>, ifNotExists: bool, key: Bytes)
    requires id in Live(s, DictKind)
    ensures var s' := Next(s, Update(id, entries, ifNotExists));
      && id in Live(s', DictKind)
      && MeaningAt(s.store.dicts.objects[id], entries, ifNotExists, s'.store.dicts.objects[id], key)
  {
    BatchUpdateAt(s.store.dicts.objects[id], entries, ifNotExists, key);
    hide BatchUpdate, MeaningAt;
  }

  function Holds(s: Server, id: string, key: Bytes): Option<Bytes> {
    if id in s.store.dicts.objects then Under(s.store.dicts.objects[id], key) else None
  }

  lemma StepHolds(s: Server, step: Step, id: string, key: Bytes, created: set<string>)
    requires Inv(s, DictKind, created) && id in Live(Next(s, step), DictKind)
    ensures Holds(Next(s, step), id, key)
         == if id in Live(s, DictKind) then HeldAfter(Holds(s, id, key), step, id, key) else None
  {
    hide BatchUpdate, Candidate, Wrote;
    match step
    case Update(i, entries, ifNotExists) =>
      if i == id {
        BatchByKey(s.store.dicts.objects[id], entries, ifNotExists, key);
      }
    case _ =>
  }

  /**
   * In every interleaving, what a live dict holds under a key is the outcome of that key's writes, in order, since the
   * dict was created, last cleared, or the key last popped; a write that must not replace counts only where it finds none.
   */
  lemma {:induction false} DictHoldsItsWrites(run: seq<Step>, id: string, key: Bytes)
    requires Exec(run).draws <= TWO_TO_THE_64 && id in Live(Exec(run), DictKind)
    ensures Holds(Exec(run), id, key) == HeldUnder(run, id, key)
  {
    hide Next, Holds, HeldAfter, Live, Inv;
    if run == [] {
      NoneAtStart(id);
    } else {
      var before, step := run[..|run| - 1], run[|run| - 1];
      LiveAfter(Exec(before), step, DictKind);
      Reachable(before, DictKind);
      StepHolds(Exec(before), step, id, key, Created(before, DictKind));
      if id in Live(Exec(before), DictKind) {
        DictHoldsItsWrites(before, id, key);
      }
    }
  }

  lemma NoneAtStart(id: string)
    ensures id !in Live(START, DictKind)
  {}
}
