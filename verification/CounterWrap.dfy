/** The lifecycle and queue results hold for as many draws as the counter has values, and for no more. */
module CounterWrap {
  import opened Wrappers
  import opened ByteStrings
  import opened ObjectStoreSpec
  import opened Servicer
  import opened DictHistory

  // ---- names and objects ----

  ghost predicate OneToOneAfter(run: seq<Step>) {
    OneToOne(Exec(run).store.dicts) && OneToOne(Exec(run).store.queues)
  }

  /** Every run of at most `n` draws keeps names and live objects one to one, exactly when `n` is at most 2^64. */
  lemma OneToOneUpTo(n: nat)
    ensures (forall run :: Exec(run).draws <= n ==> OneToOneAfter(run)) <==> n <= TWO_TO_THE_64
  {
    hide Exec, OneToOne;
    if n <= TWO_TO_THE_64 {
      forall run | Exec(run).draws <= n ensures OneToOneAfter(run) {
        NamesMatchObjects(run);
      }
    } else {
      WrappedCounterSharesObject();
      var run := [Draw(0, DictKind, "a", true), Lock(0)] + Lookups(TWO_TO_THE_64 - 1) + [Draw(0, DictKind, "b", true), Lock(0)];
      assert Exec(run).draws <= n && !OneToOneAfter(run);
    }
  }

  // ---- deleted ids ----

  ghost predicate StaysDead(run: seq<Step>, more: seq<Step>, kind: Kind, id: string) {
    id in Created(run, kind) && id !in Live(Exec(run), kind) ==> id !in Live(Exec(run + more), kind)
  }

  /** The id of a deleted object is never live again in runs of at most `n` draws, exactly when `n` is at most 2^64. */
  lemma DeadUpTo(n: nat)
    ensures (forall run, more, kind, id :: Exec(run + more).draws <= n ==> StaysDead(run, more, kind, id)) <==> n <= TWO_TO_THE_64
  {
    hide Exec, Live, Created;
    if n <= TWO_TO_THE_64 {
      forall run, more, kind, id | Exec(run + more).draws <= n ensures StaysDead(run, more, kind, id) {
        if id in Created(run, kind) && id !in Live(Exec(run), kind) {
          DeletedIdsStayDead(run, more, kind, id);
        }
      }
    } else {
      var run, more, id := WrappedCounterRevives();
      assert Exec(run + more).draws <= n && !StaysDead(run, more, DictKind, id);
    }
  }

  lemma AfterDelete(id: string)
    requires id == Candidate(DictKind, 1)
    ensures var run := [Draw(0, DictKind, "a", true), Lock(0), DeleteObject(DictKind, id)];
      && Exec(run) == START.(draws := 1)
      && id in Created(run, DictKind)
  {
    hide Candidate;
    var first := [Draw(0, DictKind, "a", true), Lock(0)];
    var run := [Draw(0, DictKind, "a", true), Lock(0), DeleteObject(DictKind, id)];
    StartRuns();
    OneRequest([], "a", true);
    assert [] + first == first;
    assert run[..2] == first;
    assert Exec(first).store.dicts == Registry(map["a" := id], map[id := map[]]);
    hide Next, Exec, Created;
    CreatedSnoc(first, DeleteObject(DictKind, id));
    LiveIsCreated(first, DictKind, id);
    assert run == first + [DeleteObject(DictKind, id)];
    DeleteOnly(Exec(first), id);
  }

  lemma CreatedSnoc(run: seq<Step>, step: Step)
    ensures Exec(run + [step]) == Next(Exec(run), step) && Created(run, DictKind) <= Created(run + [step], DictKind)
  {
    hide Next;
    assert (run + [step])[..|run|] == run;
  }

  lemma LiveIsCreated(run: seq<Step>, kind: Kind, id: string)
    requires run != [] && id in Live(Exec(run), kind)
    ensures id in Created(run, kind)
  {}

  lemma DeleteOnly(s: Server, id: string)
    requires s.store.dicts == Registry(map["a" := id], map[id := map[]])
    ensures Next(s, DeleteObject(DictKind, id)) == s.(store := s.store.(dicts := Registry(map[], map[])))
  {
    var none: map<string, map<Bytes, Bytes>> := map[];
    assert s.store.dicts.objects - {id} == none;
  }

  /** 2^64 draws after the first, another name gets the id of the deleted dict. */
  lemma WrappedCounterRevives() returns (run: seq<Step>, more: seq<Step>, id: string)
    ensures Exec(run + more).draws == TWO_TO_THE_64 + 1
    ensures id in Created(run, DictKind) && id !in Live(Exec(run), DictKind) && id in Live(Exec(run + more), DictKind)
  {
    hide Exec, Lookups, Candidate, Created;
    id := Candidate(DictKind, 1);
    run := [Draw(0, DictKind, "a", true), Lock(0), DeleteObject(DictKind, id)];
    var last := [Draw(0, DictKind, "b", true), Lock(0)];
    more := Lookups(TWO_TO_THE_64 - 1) + last;
    AfterDelete(id);
    LookupsOnlyDraw(run, TWO_TO_THE_64 - 1);
    OneRequest(run + Lookups(TWO_TO_THE_64 - 1), "b", true);
    assert run + more == (run + Lookups(TWO_TO_THE_64 - 1)) + last;
    CandidatesCoincideIff(DictKind, 1, TWO_TO_THE_64 + 1);
  }

  // ---- queue items ----

  const ITEM: seq<Bytes> := [[]]

  ghost predicate Conserved(run: seq<Step>, id: string) {
    Accepted(run, id) == Removed(run, id) + Items(Exec(run), id)
  }

  /** No queue item is lost in runs of at most `n` draws, exactly when `n` is at most 2^64. */
  lemma ConservedUpTo(n: nat)
    ensures (forall run, id :: Exec(run).draws <= n ==> Conserved(run, id)) <==> n <= TWO_TO_THE_64
  {
    hide Exec, Accepted, Removed, Items;
    if n <= TWO_TO_THE_64 {
      forall run, id | Exec(run).draws <= n ensures Conserved(run, id) {
        QueueConservation(run, id);
      }
    } else {
      var run, id := WrappedCounterLosesItem();
      assert Exec(run).draws <= n && !Conserved(run, id);
    }
  }

  function RequestedQueue(s: Server, name: string): Server {
    s.(draws := s.draws + 1,
       store := s.store.(queues := Resolve(s.store.queues, name, true, Candidate(QueueKind, s.draws + 1), []).0))
  }

  lemma DrawThenLockQueue(s: Server, name: string)
    requires 0 !in s.pending
    ensures Next(Next(s, Draw(0, QueueKind, name, true)), Lock(0)) == RequestedQueue(s, name)
  {
    hide Candidate, Resolve;
    assert s.pending[0 := Pending(QueueKind, name, true, s.draws + 1)] - {0} == s.pending;
  }

  /** The part of a run's history that concerns one queue. */
  lemma HistorySnoc(run: seq<Step>, step: Step, id: string)
    ensures Exec(run + [step]) == Next(Exec(run), step)
    ensures Removed(run + [step], id) == Removed(run, id) + Out(Exec(run), step, id)
    ensures Accepted(run + [step], id) == Accepted(run, id) +
      if step.Put? && step.id == id && id in Live(Exec(run), QueueKind) then step.values else []
  {
    hide Next, Out, Live;
    assert (run + [step])[..|run|] == run;
  }

  lemma QueueRequest(run: seq<Step>, name: string, id: string)
    requires 0 !in Exec(run).pending
    ensures var run' := run + [Draw(0, QueueKind, name, true)] + [Lock(0)];
      Exec(run') == RequestedQueue(Exec(run), name) && Accepted(run', id) == Accepted(run, id) && Removed(run', id) == Removed(run, id)
  {
    hide Next, RequestedQueue, Exec, Accepted, Removed;
    var draw := Draw(0, QueueKind, name, true);
    HistorySnoc(run, draw, id);
    HistorySnoc(run + [draw], Lock(0), id);
    DrawThenLockQueue(Exec(run), name);
    NothingAdded(Accepted(run, id));
    NothingAdded(Removed(run, id));
  }

  lemma NothingAdded(s: seq<Bytes>)
    ensures s + [] == s
  {}

  lemma {:induction false} LookupsMoveNothing(run: seq<Step>, n: nat, id: string)
    ensures Accepted(run + Lookups(n), id) == Accepted(run, id) && Removed(run + Lookups(n), id) == Removed(run, id)
  {
    hide Next, Exec, Accepted, Removed;
    if n == 0 {
      assert run + [] == run;
    } else {
      LookupsMoveNothing(run, n - 1, id);
      var before, draw := run + Lookups(n - 1), Draw(0, DictKind, "nobody", false);
      HistorySnoc(before, draw, id);
      HistorySnoc(before + [draw], Lock(0), id);
      NothingAdded(Accepted(run, id));
      NothingAdded(Removed(run, id));
      assert run + Lookups(n) == (before + [draw]) + [Lock(0)];
    }
  }

  lemma OneItem(id: string) returns (run: seq<Step>)
    requires id == Candidate(QueueKind, 1)
    ensures Exec(run) == START.(draws := 1, store := START.store.(queues := Registry(map["a" := id], map[id := ITEM])))
    ensures Accepted(run, id) == ITEM && Removed(run, id) == []
  {
    var first := [] + [Draw(0, QueueKind, "a", true)] + [Lock(0)];
    StartRuns();
    NoHistory(id);
    hide Candidate, Accepted, Removed, Exec, Next;
    QueueRequest([], "a", id);
    run := first + [Put(id, ITEM)];
    HistorySnoc(first, Put(id, ITEM), id);
    PutInto(Exec(first), id);
  }

  /** One item put into a queue, and the queue replaced by another name's 2^64 draws later. */
  lemma WrappedCounterLosesItem() returns (run: seq<Step>, id: string)
    ensures Exec(run).draws == TWO_TO_THE_64 + 1
    ensures !Conserved(run, id)
  {
    hide Lookups, Candidate, Accepted, Removed, Exec, Next;
    id := Candidate(QueueKind, 1);
    var filled := OneItem(id);
    LookupsOnlyDraw(filled, TWO_TO_THE_64 - 1);
    LookupsMoveNothing(filled, TWO_TO_THE_64 - 1, id);
    var waited := filled + Lookups(TWO_TO_THE_64 - 1);
    QueueRequest(waited, "b", id);
    run := waited + [Draw(0, QueueKind, "b", true)] + [Lock(0)];
    CandidatesCoincideIff(QueueKind, 1, TWO_TO_THE_64 + 1);
    assert Items(Exec(run), id) == [];
  }

  lemma NoHistory(id: string)
    ensures Accepted([], id) == [] && Removed([], id) == []
  {}

  lemma PutInto(s: Server, id: string)
    requires s.store.queues.objects == map[id := []]
    ensures var s' := Next(s, Put(id, ITEM));
      && s' == s.(store := s.store.(queues := s.store.queues.(objects := map[id := ITEM])))
      && id in Live(s, QueueKind)
  {
    var none: seq<Bytes> := [];
    assert none + ITEM == ITEM;
    assert s.store.queues.objects[id := ITEM] == map[id := ITEM];
  }

  // ---- dict contents ----

  ghost predicate HoldsItsWrites(run: seq<Step>, id: string, key: Bytes) {
    id in Live(Exec(run), DictKind) ==> Holds(Exec(run), id, key) == HeldUnder(run, id, key)
  }

  /** A live dict holds what its writes left in runs of at most `n` draws, exactly when `n` is at most 2^64. */
  lemma HeldUpTo(n: nat)
    ensures (forall run, id, key :: Exec(run).draws <= n ==> HoldsItsWrites(run, id, key)) <==> n <= TWO_TO_THE_64
  {
    hide Exec, HoldsItsWrites;
    if n <= TWO_TO_THE_64 {
      forall run, id, key | Exec(run).draws <= n ensures HoldsItsWrites(run, id, key) {
        HoldsWithin(run, id, key);
      }
    } else {
      var run, id := WrappedCounterForgets();
      assert Exec(run).draws <= n && !HoldsItsWrites(run, id, []);
    }
  }

  lemma HoldsWithin(run: seq<Step>, id: string, key: Bytes)
    requires Exec(run).draws <= TWO_TO_THE_64
    ensures HoldsItsWrites(run, id, key)
  {
    hide Exec, Holds, HeldUnder;
    if id in Live(Exec(run), DictKind) {
      DictHoldsItsWrites(run, id, key);
    }
  }

  lemma HeldSnoc(run: seq<Step>, step: Step, id: string, key: Bytes)
    requires id in Live(Exec(run), DictKind)
    ensures Exec(run + [step]) == Next(Exec(run), step)
    ensures HeldUnder(run + [step], id, key) == HeldAfter(HeldUnder(run, id, key), step, id, key)
  {
    hide Next, HeldAfter;
    assert (run + [step])[..|run|] == run;
  }

  lemma {:induction false} LookupsWriteNothing(run: seq<Step>, n: nat, id: string, key: Bytes)
    requires "nobody" !in Exec(run).store.dicts.ids && 0 !in Exec(run).pending && id in Live(Exec(run), DictKind)
    ensures HeldUnder(run + Lookups(n), id, key) == HeldUnder(run, id, key)
  {
    hide Next, Exec, HeldUnder;
    if n == 0 {
      assert run + [] == run;
    } else {
      LookupsWriteNothing(run, n - 1, id, key);
      LookupsOnlyDraw(run, n - 1);
      var before, draw := run + Lookups(n - 1), Draw(0, DictKind, "nobody", false);
      HeldSnoc(before, draw, id, key);
      DrawKeepsLive(Exec(before), draw);
      HeldSnoc(before + [draw], Lock(0), id, key);
      assert run + Lookups(n) == (before + [draw]) + [Lock(0)];
    }
  }

  lemma DrawKeepsLive(s: Server, draw: Step)
    requires draw.Draw?
    ensures Live(Next(s, draw), DictKind) == Live(s, DictKind)
  {}

  lemma OneEntry(id: string) returns (run: seq<Step>)
    requires id == Candidate(DictKind, 1)
    ensures Exec(run) == START.(draws := 1, store := START.store.(dicts := Registry(map["a" := id], map[id := map[[] := []]])))
    ensures HeldUnder(run, id, []) == Some([])
  {
    var first := [Draw(0, DictKind, "a", true), Lock(0)];
    StartRuns();
    OneRequest([], "a", true);
    assert [] + first == first;
    hide Candidate, Exec, Next, HeldUnder;
    run := first + [Update(id, [([], [])], false)];
    assert Exec(first).store.dicts == Registry(map["a" := id], map[id := map[]]);
    HeldSnoc(first, Update(id, [([], [])], false), id, []);
    WriteOne(Exec(first), id);
    OneWrite(HeldUnder(first, id, []));
  }

  lemma OneWrite(held: Option<Bytes>)
    ensures Wrote(held, [([], [])], false, []) == Some([])
  {}

  lemma WriteOne(s: Server, id: string)
    requires s.store.dicts.objects == map[id := map[]]
    ensures Next(s, Update(id, [([], [])], false)) == WithDict(s, id, map[[] := []])
  {
    var none: map<Bytes, Bytes>, nothing: seq<Entry> := map[], [];
    BatchUpdateSnoc(none, nothing, ([], []), false);
    assert nothing + [([], [])] == [([], [])];
  }

  /** One entry written to a dict, and the dict replaced by another name's 2^64 draws later. */
  lemma WrappedCounterForgets() returns (run: seq<Step>, id: string)
    ensures Exec(run).draws == TWO_TO_THE_64 + 1
    ensures !HoldsItsWrites(run, id, [])
  {
    hide Lookups, Candidate, HeldUnder, Exec, Next;
    id := Candidate(DictKind, 1);
    var filled := OneEntry(id);
    LookupsOnlyDraw(filled, TWO_TO_THE_64 - 1);
    LookupsWriteNothing(filled, TWO_TO_THE_64 - 1, id, []);
    var waited := filled + Lookups(TWO_TO_THE_64 - 1);
    var draw := Draw(0, DictKind, "b", true);
    OneRequest(waited, "b", true);
    HeldSnoc(waited, draw, id, []);
    DrawKeepsLive(Exec(waited), draw);
    HeldSnoc(waited + [draw], Lock(0), id, []);
    run := waited + [draw, Lock(0)];
    assert run == (waited + [draw]) + [Lock(0)];
    CandidatesCoincideIff(DictKind, 1, TWO_TO_THE_64 + 1);
  }
}
