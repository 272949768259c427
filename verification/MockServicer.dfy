/** The servicer object itself: a wrapping counter beside a locked store, updated in place one step at a time. */
module MockServicers {
  import opened Wrappers
  import opened ByteStrings
  import opened ObjectStoreSpec
  import opened ObjectStores
  import opened Decimals
  import opened Servicer
  import opened DictHistory

  type Request = (Kind, string, bool, string)

  function Holding(p: Pending): Request { (p.kind, p.name, p.create, Candidate(p.kind, p.draw)) }

  /** What each suspended request holds of the model's pending one. */
  function Suspended(pending: map<nat, Pending>): map<nat, Request> { map r | r in pending :: Holding(pending[r]) }

  /** The next value of the counter: after the last comes zero. */
  function Bumped(counter: nat): nat { if counter + 1 == TWO_TO_THE_64 then 0 else counter + 1 }

  lemma OrdinalNext(draws: nat)
    ensures Ordinal(draws) < TWO_TO_THE_64 && Bumped(Ordinal(draws)) == Ordinal(draws + 1)
  {}

  lemma SuspendedAfterDraw(pending: map<nat, Pending>, request: nat, p: Pending)
    ensures Suspended(pending[request := p]) == Suspended(pending)[request := Holding(p)]
  {
    hide Holding;
  }

  lemma SuspendedAfterLock(pending: map<nat, Pending>, request: nat)
    ensures Suspended(pending - {request}) == Suspended(pending) - {request}
  {
    hide Holding;
  }

  class MockServicer {
    var counter: nat // an AtomicU64
    const store: ObjectStore
    /** What a suspended get-or-create still holds: its request and the candidate id it drew. */
    var suspended: map<nat, Request>
    ghost var model: Server

    ghost predicate Valid()
      reads this, store
    {
      && model.store == store.Contents()
      && counter == Ordinal(model.draws)
      && suspended == Suspended(model.pending)
    }

    constructor ()
      ensures Valid() && fresh(store) && model == START
    {
      counter, suspended := 0, map[];
      store := new ObjectStore();
      model := START;
    }

    /** `fetch_add(1) + 1` on 64 bits. */
    method NextId() returns (n: nat)
      requires counter < TWO_TO_THE_64
      modifies this`counter
      ensures n == counter == Bumped(old(counter))
    {
      counter := (counter + 1) % TWO_TO_THE_64;
      n := counter;
    }

    /** The first half of a get-or-create: draw the candidate, outside the lock. */
    method BeginGetOrCreate(request: nat, kind: Kind, name: string, create: bool)
      requires Valid() && request !in suspended
      modifies this
      ensures Valid() && model == Next(old(model), Draw(request, kind, name, create))
    {
      SuspendedAfterDraw(model.pending, request, Pending(kind, name, create, model.draws + 1));
      assert request !in model.pending;
      OrdinalNext(model.draws);
      hide Decimal, Prefix, Suspended, Ordinal, Bumped;
      var n := NextId();
      suspended := suspended[request := (kind, name, create, Prefix(kind) + Decimal(n))];
      model := Next(model, Draw(request, kind, name, create));
    }

    /** An id of another kind, a mount's or a volume's, comes from the same counter. */
    method DrawOther() returns (n: nat)
      requires Valid()
      modifies this`counter, this`model
      ensures Valid() && model == Next(old(model), DrawElsewhere) && n == Ordinal(model.draws)
    {
      OrdinalNext(model.draws);
      hide Ordinal, Bumped;
      n := NextId();
      model := Next(model, DrawElsewhere);
    }

    /** The second half, under the lock; the answer is the id, or not-found. */
    method FinishGetOrCreate(request: nat) returns (r: Option<string>)
      requires Valid() && request in suspended
      modifies this, store
      ensures Valid() && model == Next(old(model), Lock(request))
      ensures r == Answer(old(model), request)
    {
      SuspendedAfterLock(model.pending, request);
      assert suspended[request] == Holding(model.pending[request]);
      hide Suspended, Candidate;
      var (kind, name, create, candidate) := suspended[request];
      if kind == DictKind {
        r := store.ResolveDict(name, create, candidate);
      } else {
        r := store.ResolveQueue(name, create, candidate);
      }
      suspended := suspended - {request};
      model := Next(model, Lock(request));
    }

    /** `dict_delete` and `queue_delete`. */
    method DeleteObject(kind: Kind, id: string) returns (known: bool)
      requires Valid()
      modifies this, store
      ensures Valid() && model == Next(old(model), Step.DeleteObject(kind, id))
      ensures known == (id in old(Live(model, kind)))
    {
      if kind == DictKind {
        known := store.DeleteDict(id);
      } else {
        known := store.DeleteQueue(id);
      }
      model := Next(model, Step.DeleteObject(kind, id));
    }

    method DictUpdate(id: string, entries: seq<Entry>, ifNotExists: bool) returns (r: Result<bool, ()>)
      requires Valid()
      modifies this, store
      ensures Valid() && model == Next(old(model), Update(id, entries, ifNotExists))
      ensures r.Ok? == (id in old(Live(model, DictKind)))
      ensures r.Ok? ==> (r.value <==> AllNew(old(model).store.dicts.objects[id], entries))
      ensures r.Ok? ==> id in store.dicts && forall key ::
        MeaningAt(old(store.dicts)[id], entries, ifNotExists, store.dicts[id], key)
    {
      r := store.DictUpdate(id, entries, ifNotExists);
      if r.Ok? {
        BatchUpdateMeaning(model.store.dicts.objects[id], entries, ifNotExists);
      }
      model := Next(model, Update(id, entries, ifNotExists));
    }

    method QueuePut(id: string, values: seq<Bytes>) returns (r: Result<(), ()>)
      requires Valid()
      modifies this, store
      ensures Valid() && model == Next(old(model), Put(id, values))
      ensures r.Ok? == (id in old(Live(model, QueueKind)))
    {
      r := store.QueuePut(id, values);
      model := Next(model, Put(id, values));
    }

    /** One tick of `queue_get`: what it delivers is what the step takes out. */
    method PollQueue(id: string, n: nat) returns (r: Result<seq<Bytes>, ()>)
      requires Valid()
      modifies this, store
      ensures Valid() && model == Next(old(model), Poll(id, n))
      ensures r.Ok? == (id in old(Live(model, QueueKind)))
      ensures r.Ok? ==> r.value == Out(old(model), Poll(id, n), id)
      ensures r.Ok? ==> id in store.queues && Delivers(old(store.queues)[id], n, r.value, store.queues[id])
    {
      ghost var items := Items(model, id);
      r := store.QueuePop(id, n);
      if r.Ok? {
        assert items == r.value + store.queues[id] && |r.value| == Take(items, n);
        assert r.value == items[..Take(items, n)] && store.queues[id] == items[Take(items, n)..];
      }
      model := Next(model, Poll(id, n));
    }

    method QueueClear(id: string) returns (r: Result<(), ()>)
      requires Valid()
      modifies this, store
      ensures Valid() && model == Next(old(model), ClearQueue(id))
      ensures r.Ok? == (id in old(Live(model, QueueKind)))
    {
      r := store.QueueClear(id);
      model := Next(model, ClearQueue(id));
    }

    /** A get answers what the dict holds, which is what the history of its writes says. */
    method DictGet(id: string, key: Bytes) returns (r: Result<Option<Bytes>, ()>)
      requires Valid()
      ensures r == if id in Live(model, DictKind) then Ok(Holds(model, id, key)) else Err(())
    {
      r := store.DictGet(id, key);
    }

    method DictPop(id: string, key: Bytes) returns (r: Result<Option<Bytes>, ()>)
      requires Valid()
      modifies this, store
      ensures Valid() && model == Next(old(model), Pop(id, key))
      ensures r.Ok? == (id in old(Live(model, DictKind)))
      ensures r.Ok? ==> var d := old(model).store.dicts.objects[id];
        r.value == if key in d then Some(d[key]) else None
    {
      r := store.DictPop(id, key);
      model := Next(model, Pop(id, key));
    }

    method DictClear(id: string) returns (r: Result<(), ()>)
      requires Valid()
      modifies this, store
      ensures Valid() && model == Next(old(model), ClearDict(id))
      ensures r.Ok? == (id in old(Live(model, DictKind)))
    {
      r := store.DictClear(id);
      model := Next(model, ClearDict(id));
    }
  }
}
