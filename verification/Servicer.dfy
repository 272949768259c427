/** Decimal rendering, as the `{n}` in the servicer's `di-{n}` and `qu-{n}` ids. */
module Decimals {
  function DigitChar(d: nat): char
    requires d < 10
  {
    '0' + d as char
  }

  function DigitValue(c: char): nat { if '0' <= c <= '9' then (c - '0') as nat else 0 }

  lemma DigitRoundTrip(d: nat)
    requires d < 10
    ensures DigitValue(DigitChar(d)) == d
  {}

  function Decimal(n: nat): string {
    if n < 10 then [DigitChar(n)] else Decimal(n / 10) + [DigitChar(n % 10)]
  }

  function Value(s: string): nat {
    if s == [] then 0 else 10 * Value(s[..|s| - 1]) + DigitValue(s[|s| - 1])
  }

  lemma ValueSnoc(s: string, c: char)
    ensures Value(s + [c]) == 10 * Value(s) + DigitValue(c)
  {
    assert (s + [c])[..|s|] == s;
  }

  lemma {:induction false} DecimalRoundTrip(n: nat)
    ensures Value(Decimal(n)) == n
  {
    DigitRoundTrip(n % 10);
    if n < 10 {
      ValueSnoc([], DigitChar(n));
      assert [] + [DigitChar(n)] == Decimal(n);
    } else {
      DecimalRoundTrip(n / 10);
      ValueSnoc(Decimal(n / 10), DigitChar(n % 10));
    }
  }
}

/**
 * The servicer under many clients. A get-or-create draws its candidate id outside the store lock and
 * resolves inside it, so other requests run in between; every other call is one locked step. A run is
 * any sequence of steps: every interleaving of every set of clients is one of them.
 */
module Servicer {
  import opened Wrappers
  import opened ByteStrings
  import opened ObjectStoreSpec
  import opened Decimals

  datatype Kind = DictKind | QueueKind

  function Prefix(kind: Kind): string { if kind == DictKind then "di-" else "qu-" }

  /** `next_id` after `draws - 1` earlier draws: the 64-bit counter wraps. */
  function Ordinal(draws: nat): nat { draws % TWO_TO_THE_64 }

  function Candidate(kind: Kind, draws: nat): string { Prefix(kind) + Decimal(Ordinal(draws)) }

  datatype Pending = Pending(kind: Kind, name: string, create: bool, draw: nat)

  /** `pending` holds the requests between their draw and their turn at the lock. */
  datatype Server = Server(store: View, draws: nat, pending: map<nat, Pending>)

  /** `DrawElsewhere` is an id of another kind, which comes from the same counter. */
  datatype Step =
    | Draw(request: nat, kind: Kind, name: string, create: bool)
    | DrawElsewhere
    | Lock(request: nat)
    | Update(id: string, entries: seq<Entry>, ifNotExists: bool)
    | Pop(id: string, key: Bytes)
    | ClearDict(id: string)
    | Put(id: string, values: seq<Bytes>)
    | Poll(id: string, n: nat)
    | ClearQueue(id: string)
    | DeleteObject(kind: Kind, id: string)

  const START := Server(View(Registry(map[], map[]), Registry(map[], map[])), 0, map[])

  function Take(items: seq<Bytes>, n: nat): nat { if n < |items| then n else |items| }

  function Next(s: Server, step: Step): Server {
    var dicts, queues := s.store.dicts, s.store.queues;
    match step
    case Draw(request, kind, name, create) =>
      if request in s.pending then s
      else s.(draws := s.draws + 1, pending := s.pending[request := Pending(kind, name, create, s.draws + 1)])
    case DrawElsewhere => s.(draws := s.draws + 1)
    case Lock(request) =>
      if request !in s.pending then s
      else
        var p := s.pending[request];
        var id := Candidate(p.kind, p.draw);
        var store := if p.kind == DictKind
          then s.store.(dicts := Resolve(dicts, p.name, p.create, id, map[]).0)
          else s.store.(queues := Resolve(queues, p.name, p.create, id, []).0);
        s.(store := store, pending := s.pending - {request})
    case Update(id, entries, ifNotExists) =>
      if id !in dicts.objects then s
      else WithDict(s, id, BatchUpdate(dicts.objects[id], entries, ifNotExists).0)
    case Pop(id, key) => if id !in dicts.objects then s else WithDict(s, id, dicts.objects[id] - {key})
    case ClearDict(id) => if id !in dicts.objects then s else WithDict(s, id, map[])
    case Put(id, values) => if id !in queues.objects then s else WithQueue(s, id, queues.objects[id] + values)
    case Poll(id, n) =>
      if id !in queues.objects then s
      else WithQueue(s, id, queues.objects[id][Take(queues.objects[id], n)..])
    case ClearQueue(id) => if id !in queues.objects then s else WithQueue(s, id, [])
    case DeleteObject(kind, id) =>
      if kind == DictKind then s.(store := s.store.(dicts := Delete(dicts, id).0))
      else s.(store := s.store.(queues := Delete(queues, id).0))
  }

  function WithDict(s: Server, id: string, d: map<Bytes, Bytes>): Server {
    s.(store := s.store.(dicts := s.store.dicts.(objects := s.store.dicts.objects[id := d])))
  }

  function WithQueue(s: Server, id: string, items: seq<Bytes>): Server {
    s.(store := s.store.(queues := s.store.queues.(objects := s.store.queues.objects[id := items])))
  }

  function Exec(run: seq<Step>): Server {
    if run == [] then START else Next(Exec(run[..|run| - 1]), run[|run| - 1])
  }

  function Ids(s: Server, kind: Kind): map<string, string> {
    if kind == DictKind then s.store.dicts.ids else s.store.queues.ids
  }

  function Live(s: Server, kind: Kind): set<string> {
    if kind == DictKind then s.store.dicts.objects.Keys else s.store.queues.objects.Keys
  }

  /** The ids of this kind that a run has created at some point. */
  function Created(run: seq<Step>, kind: Kind): set<string> {
    if run == [] then {} else Created(run[..|run| - 1], kind) + Live(Exec(run), kind)
  }

  // ---- the counter ----

  /** Why the results below count the draws: 2^64 draws later the very same id is handed out again, and only then. */
  lemma CandidatesCoincideIff(kind: Kind, d1: nat, d2: nat)
    ensures Candidate(kind, d1) == Candidate(kind, d2) <==> d1 % TWO_TO_THE_64 == d2 % TWO_TO_THE_64
  {
    hide Decimal, Value;
    DecimalRoundTrip(Ordinal(d1));
    DecimalRoundTrip(Ordinal(d2));
    assert Decimal(Ordinal(d1)) == Candidate(kind, d1)[3..];
    assert Decimal(Ordinal(d2)) == Candidate(kind, d2)[3..];
  }

  // ---- what every reachable state keeps ----

  /** Every id ever created was drawn, and the candidates in flight are new and all different. */
  ghost predicate Inv(s: Server, kind: Kind, created: set<string>) {
    && Live(s, kind) <= created
    && (forall id :: id in created ==> exists d: nat :: 1 <= d <= s.draws && id == Candidate(kind, d))
    && (forall r :: r in s.pending ==> 1 <= s.pending[r].draw <= s.draws)
    && (forall r, r' :: r in s.pending && r' in s.pending && r != r' ==> s.pending[r].draw != s.pending[r'].draw)
    && (forall r :: r in s.pending && s.pending[r].kind == kind ==> Candidate(kind, s.pending[r].draw) !in created)
  }

  lemma LiveAfter(s: Server, step: Step, kind: Kind)
    ensures s.draws <= Next(s, step).draws
    ensures Live(Next(s, step), kind) <= Live(s, kind) +
      (if step.Lock? && step.request in s.pending && s.pending[step.request].kind == kind
       then {Candidate(kind, s.pending[step.request].draw)} else {})
  {}

  /** A step either draws one new candidate or adds no request; a request leaves when it has the lock. */
  lemma PendingAfter(s: Server, step: Step, r: nat)
    requires r in Next(s, step).pending
    ensures r in s.pending ==> Next(s, step).pending[r] == s.pending[r] && step != Lock(r)
    ensures r !in s.pending ==> Next(s, step).pending[r].draw == s.draws + 1 == Next(s, step).draws
    ensures r !in s.pending ==> step.Draw? && step.request == r
  {}

  lemma StepKeepsInv(s: Server, step: Step, kind: Kind, created: set<string>)
    requires Inv(s, kind, created) && Next(s, step).draws <= TWO_TO_THE_64
    ensures Inv(Next(s, step), kind, created + Live(Next(s, step), kind))
  {
    hide Next, Live, Candidate;
    var s' := Next(s, step);
    var created' := created + Live(s', kind);
    LiveAfter(s, step, kind);
    forall id | id in created' ensures exists d: nat :: 1 <= d <= s'.draws && id == Candidate(kind, d) {
      if id in created {
        var d: nat :| 1 <= d <= s.draws && id == Candidate(kind, d);
        assert 1 <= d <= s'.draws;
      } else {
        assert id == Candidate(kind, s.pending[step.request].draw);
      }
    }
    forall r | r in s'.pending ensures 1 <= s'.pending[r].draw <= s'.draws {
      PendingAfter(s, step, r);
    }
    forall r, r' | r in s'.pending && r' in s'.pending && r != r' ensures s'.pending[r].draw != s'.pending[r'].draw {
      PendingAfter(s, step, r);
      PendingAfter(s, step, r');
    }
    forall r | r in s'.pending && s'.pending[r].kind == kind ensures Candidate(kind, s'.pending[r].draw) !in created' {
      PendingAfter(s, step, r);
      StaysFresh(s, step, kind, created, r);
    }
  }

  lemma StaysFresh(s: Server, step: Step, kind: Kind, created: set<string>, r: nat)
    requires Inv(s, kind, created) && Next(s, step).draws <= TWO_TO_THE_64
    requires r in Next(s, step).pending && Next(s, step).pending[r].kind == kind
    ensures Candidate(kind, Next(s, step).pending[r].draw) !in created + Live(Next(s, step), kind)
  {
    hide Next, Live, Candidate;
    PendingAfter(s, step, r);
    LiveAfter(s, step, kind);
    var draw := Next(s, step).pending[r].draw;
    if Candidate(kind, draw) in created {
      var d: nat :| 1 <= d <= s.draws && Candidate(kind, draw) == Candidate(kind, d);
      CandidatesCoincideIff(kind, draw, d);
    } else if Candidate(kind, draw) in Live(Next(s, step), kind) {
      CandidatesCoincideIff(kind, draw, s.pending[step.request].draw);
    }
  }

  lemma {:induction false} Reachable(run: seq<Step>, kind: Kind)
    requires Exec(run).draws <= TWO_TO_THE_64
    ensures Inv(Exec(run), kind, Created(run, kind))
  {
    hide Next;
    if run != [] {
      var before := run[..|run| - 1];
      LiveAfter(Exec(before), run[|run| - 1], kind);
      Reachable(before, kind);
      StepKeepsInv(Exec(before), run[|run| - 1], kind, Created(before, kind));
    }
  }

  // ---- lifecycle ----

  lemma StepKeepsOneToOne(s: Server, step: Step)
    requires OneToOne(s.store.dicts) && OneToOne(s.store.queues)
    requires step.Lock? && step.request in s.pending ==>
      Candidate(s.pending[step.request].kind, s.pending[step.request].draw) !in Live(s, s.pending[step.request].kind)
    ensures OneToOne(Next(s, step).store.dicts) && OneToOne(Next(s, step).store.queues)
  {
    hide Candidate, BatchUpdate;
    match step
    case Lock(request) =>
      if request in s.pending {
        var p := s.pending[request];
        var id := Candidate(p.kind, p.draw);
        if p.kind == DictKind {
          ResolveKeepsOneToOne(s.store.dicts, p.name, p.create, id, map[]);
        } else {
          ResolveKeepsOneToOne(s.store.queues, p.name, p.create, id, []);
        }
      }
    case DeleteObject(kind, id) =>
      DeleteKeepsOneToOne(s.store.dicts, id);
      DeleteKeepsOneToOne(s.store.queues, id);
    case _ =>
  }

  /** In every reachable state, names and live objects of a kind correspond one to one. */
  lemma {:induction false} NamesMatchObjects(run: seq<Step>)
    requires Exec(run).draws <= TWO_TO_THE_64
    ensures OneToOne(Exec(run).store.dicts) && OneToOne(Exec(run).store.queues)
  {
    hide Next, OneToOne;
    if run == [] {
      StartIsOneToOne();
    } else {
      var before, step := run[..|run| - 1], run[|run| - 1];
      LiveAfter(Exec(before), step, DictKind);
      NamesMatchObjects(before);
      Reachable(before, DictKind);
      Reachable(before, QueueKind);
      StepKeepsOneToOne(Exec(before), step);
    }
  }

  /** `n` lookups of a name that does not exist: each draws a candidate and uses none. */
  function Lookups(n: nat): seq<Step> {
    if n == 0 then [] else Lookups(n - 1) + [Draw(0, DictKind, "nobody", false), Lock(0)]
  }

  lemma {:induction false} LookupsOnlyDraw(run: seq<Step>, n: nat)
    requires "nobody" !in Exec(run).store.dicts.ids && 0 !in Exec(run).pending
    ensures var s := Exec(run); Exec(run + Lookups(n)) == s.(draws := s.draws + n)
  {
    hide Candidate, Next;
    if n == 0 {
      assert run + [] == run;
    } else {
      LookupsOnlyDraw(run, n - 1);
      OneRequest(run + Lookups(n - 1), "nobody", false);
      assert run + Lookups(n) == (run + Lookups(n - 1)) + [Draw(0, DictKind, "nobody", false), Lock(0)];
    }
  }

  /** A dict request nobody interrupts: one draw, and the resolution under that candidate. */
  function Requested(s: Server, name: string, create: bool): Server {
    s.(draws := s.draws + 1,
       store := s.store.(dicts := Resolve(s.store.dicts, name, create, Candidate(DictKind, s.draws + 1), map[]).0))
  }

  lemma DrawThenLock(s: Server, name: string, create: bool)
    requires 0 !in s.pending
    ensures Next(Next(s, Draw(0, DictKind, name, create)), Lock(0)) == Requested(s, name, create)
  {
    hide Candidate, Resolve;
    assert s.pending[0 := Pending(DictKind, name, create, s.draws + 1)] - {0} == s.pending;
  }

  lemma OneRequest(run: seq<Step>, name: string, create: bool)
    requires 0 !in Exec(run).pending
    ensures Exec(run + [Draw(0, DictKind, name, create), Lock(0)]) == Requested(Exec(run), name, create)
  {
    hide Next, Requested;
    var draw := Draw(0, DictKind, name, create);
    var all := run + [draw, Lock(0)];
    assert all[..|all| - 1] == run + [draw] && (run + [draw])[..|run|] == run;
    DrawThenLock(Exec(run), name, create);
  }

  /** Past the bound the result fails: here "b" is created over the live dict "a". */
  lemma WrappedCounterSharesObject()
    ensures var run := [Draw(0, DictKind, "a", true), Lock(0)] + Lookups(TWO_TO_THE_64 - 1) + [Draw(0, DictKind, "b", true), Lock(0)];
      Exec(run).draws == TWO_TO_THE_64 + 1 && !OneToOne(Exec(run).store.dicts)
  {
    hide Exec, Lookups, Candidate, OneToOne;
    var first := [Draw(0, DictKind, "a", true), Lock(0)];
    StartIsOneToOne();
    StartRuns();
    OneRequest([], "a", true);
    assert [] + first == first;
    ResolveKeepsOneToOne(START.store.dicts, "a", true, Candidate(DictKind, 1), map[]);
    LookupsOnlyDraw(first, TWO_TO_THE_64 - 1);
    var wrapped := first + Lookups(TWO_TO_THE_64 - 1);
    OneRequest(wrapped, "b", true);
    CandidatesCoincideIff(DictKind, 1, TWO_TO_THE_64 + 1);
    ResolveKeepsOneToOne(Exec(wrapped).store.dicts, "b", true, Candidate(DictKind, TWO_TO_THE_64 + 1), map[]);
  }

  lemma StartRuns()
    ensures Exec([]) == START
  {}

  lemma StartIsOneToOne()
    ensures OneToOne(START.store.dicts) && OneToOne(START.store.queues)
  {}

  lemma ExecSnoc(run: seq<Step>, init: seq<Step>, step: Step)
    ensures Exec(run + (init + [step])) == Next(Exec(run + init), step)
    ensures Created(run + (init + [step]), DictKind) >= Created(run + init, DictKind)
    ensures Created(run + (init + [step]), QueueKind) >= Created(run + init, QueueKind)
  {
    hide Next;
    var all := run + (init + [step]);
    assert all[..|all| - 1] == run + init;
  }

  /** Once an object that existed is gone, its id is never live again, whoever runs whatever next. */
  lemma {:induction false} DeletedIdsStayDead(run: seq<Step>, more: seq<Step>, kind: Kind, id: string)
    requires Exec(run + more).draws <= TWO_TO_THE_64
    requires id in Created(run, kind) && id !in Live(Exec(run), kind)
    ensures id in Created(run + more, kind) && id !in Live(Exec(run + more), kind)
  {
    hide Next;
    if more == [] {
      assert run + more == run;
    } else {
      var init, step := more[..|more| - 1], more[|more| - 1];
      assert more == init + [step];
      ExecSnoc(run, init, step);
      LiveAfter(Exec(run + init), step, kind);
      DeletedIdsStayDead(run, init, kind, id);
      Reachable(run + init, kind);
    }
  }

  /** What a get-or-create for `name` is answered in state `s`. */
  function Answer(s: Server, request: nat): Option<string>
    requires request in s.pending
  {
    var p := s.pending[request];
    var id := Candidate(p.kind, p.draw);
    if p.kind == DictKind then Resolve(s.store.dicts, p.name, p.create, id, map[]).1
    else Resolve(s.store.queues, p.name, p.create, id, []).1
  }

  lemma StepKeepsName(s: Server, step: Step, kind: Kind, name: string)
    requires name in Ids(s, kind) && step != DeleteObject(kind, Ids(s, kind)[name])
    ensures name in Ids(Next(s, step), kind) && Ids(Next(s, step), kind)[name] == Ids(s, kind)[name]
  {}

  /** A name keeps its id as long as nobody deletes that id. */
  lemma {:induction false} NameKeepsId(run: seq<Step>, more: seq<Step>, kind: Kind, name: string)
    requires name in Ids(Exec(run), kind)
    requires DeleteObject(kind, Ids(Exec(run), kind)[name]) !in more
    ensures name in Ids(Exec(run + more), kind) && Ids(Exec(run + more), kind)[name] == Ids(Exec(run), kind)[name]
  {
    hide Next;
    if more == [] {
      assert run + more == run;
    } else {
      var init, step := more[..|more| - 1], more[|more| - 1];
      assert more == init + [step];
      ExecSnoc(run, init, step);
      NameKeepsId(run, init, kind, name);
      StepKeepsName(Exec(run + init), step, kind, name);
    }
  }

  /**
   * Two requests for one name, the first answered with an id nobody deletes in between, are answered alike,
   * however the draws and locks of all clients interleave.
   */
  lemma CreatorsAgree(run: seq<Step>, r1: nat, more: seq<Step>, r2: nat)
    requires r1 in Exec(run).pending && Answer(Exec(run), r1).Some?
    requires r2 in Exec(run + [Lock(r1)] + more).pending
    requires var p1, p2 := Exec(run).pending[r1], Exec(run + [Lock(r1)] + more).pending[r2];
      && p1.kind == p2.kind && p1.name == p2.name
      && DeleteObject(p1.kind, Answer(Exec(run), r1).value) !in more
    ensures Answer(Exec(run + [Lock(r1)] + more), r2) == Answer(Exec(run), r1)
  {
    var p := Exec(run).pending[r1];
    assert (run + [Lock(r1)])[..|run|] == run;
    LockNames(Exec(run), r1);
    NameKeepsId(run + [Lock(r1)], more, p.kind, p.name);
  }

  lemma LockNames(s: Server, request: nat)
    requires request in s.pending && Answer(s, request).Some?
    ensures var p := s.pending[request];
      && p.name in Ids(Next(s, Lock(request)), p.kind)
      && Ids(Next(s, Lock(request)), p.kind)[p.name] == Answer(s, request).value
  {}

  /** What a request finds at the lock: a known name's id, nothing, or a new object of its own kind under its candidate. */
  lemma LockMeans(s: Server, request: nat)
    requires request in s.pending
    ensures var p, s', r := s.pending[request], Next(s, Lock(request)), Answer(s, request);
      && (p.name in Ids(s, p.kind) ==> r == Some(Ids(s, p.kind)[p.name]) && s'.store == s.store)
      && (p.name !in Ids(s, p.kind) && !p.create ==> r == None && s'.store == s.store)
      && (p.name !in Ids(s, p.kind) && p.create ==>
            && r.Some? && Ids(s', p.kind) == Ids(s, p.kind)[p.name := r.value]
            && Live(s', p.kind) == Live(s, p.kind) + {r.value}
            && (if p.kind == DictKind then "di-" else "qu-") <= r.value
            && Value(r.value[3..]) == p.draw % TWO_TO_THE_64)
  {
    hide Decimal, Value;
    var p := s.pending[request];
    DecimalRoundTrip(Ordinal(p.draw));
    assert Candidate(p.kind, p.draw)[3..] == Decimal(Ordinal(p.draw));
  }

  /** A delete takes the object and every name for it, and leaves all other objects and names as they were. */
  lemma DeleteMeans(s: Server, kind: Kind, id: string, name: string)
    requires id in Live(s, kind)
    ensures var s' := Next(s, DeleteObject(kind, id));
      && Live(s', kind) == Live(s, kind) - {id}
      && (name in Ids(s', kind) <==> name in Ids(s, kind) && Ids(s, kind)[name] != id)
      && (name in Ids(s', kind) ==> Ids(s', kind)[name] == Ids(s, kind)[name])
      && (if kind == DictKind then s'.store.queues == s.store.queues && s'.store.dicts.objects == s.store.dicts.objects - {id}
          else s'.store.dicts == s.store.dicts && s'.store.queues.objects == s.store.queues.objects - {id})
  {}

  // ---- queue conservation ----

  function Items(s: Server, id: string): seq<Bytes> {
    if id in s.store.queues.objects then s.store.queues.objects[id] else []
  }

  /** Everything put into queue `id` while it was live, in order. */
  function Accepted(run: seq<Step>, id: string): seq<Bytes> {
    if run == [] then []
    else
      var before, step := run[..|run| - 1], run[|run| - 1];
      Accepted(before, id) +
        if step.Put? && step.id == id && id in Live(Exec(before), QueueKind) then step.values else []
  }

  /** What one step takes out of queue `id`: a poll delivers a prefix, a clear or a delete drops the rest. */
  function Out(s: Server, step: Step, id: string): seq<Bytes> {
    match step
    case Poll(i, n) => if i == id then Items(s, id)[..Take(Items(s, id), n)] else []
    case ClearQueue(i) => if i == id then Items(s, id) else []
    case DeleteObject(kind, i) => if kind == QueueKind && i == id then Items(s, id) else []
    case _ => []
  }

  function Removed(run: seq<Step>, id: string): seq<Bytes> {
    if run == [] then []
    else
      var before, step := run[..|run| - 1], run[|run| - 1];
      Removed(before, id) + Out(Exec(before), step, id)
  }

  /**
   * In every interleaving, what was put into a queue is, in order, what was delivered or dropped followed by
   * what is still in it: no item is lost, repeated or overtaken.
   */
  lemma {:induction false} QueueConservation(run: seq<Step>, id: string)
    requires Exec(run).draws <= TWO_TO_THE_64
    ensures Accepted(run, id) == Removed(run, id) + Items(Exec(run), id)
  {
    hide Next, Out, Items, Live;
    if run == [] {
      StartIsEmpty(id);
    } else {
      var before, step := run[..|run| - 1], run[|run| - 1];
      LiveAfter(Exec(before), step, QueueKind);
      QueueConservation(before, id);
      Reachable(before, QueueKind);
      StepConserves(Exec(before), step, id, Created(before, QueueKind));
      var put := if step.Put? && step.id == id && id in Live(Exec(before), QueueKind) then step.values else [];
      Carry(Removed(before, id), Items(Exec(before), id), put, Out(Exec(before), step, id), Items(Exec(run), id));
    }
  }

  lemma StartIsEmpty(id: string)
    ensures Items(START, id) == []
  {}

  lemma Carry(gone: seq<Bytes>, items: seq<Bytes>, put: seq<Bytes>, out: seq<Bytes>, items': seq<Bytes>)
    requires items + put == out + items'
    ensures (gone + items) + put == (gone + out) + items'
  {
    assert (gone + items) + put == gone + (items + put);
    assert (gone + out) + items' == gone + (out + items');
  }

  lemma StepConserves(s: Server, step: Step, id: string, created: set<string>)
    requires Inv(s, QueueKind, created)
    ensures Items(s, id) + (if step.Put? && step.id == id && id in Live(s, QueueKind) then step.values else [])
         == Out(s, step, id) + Items(Next(s, step), id)
  {
    hide BatchUpdate;
    match step
    case Poll(_, n) => assert Items(s, id) == Items(s, id)[..Take(Items(s, id), n)] + Items(s, id)[Take(Items(s, id), n)..];
    case _ =>
  }

  /** A poll of at most `n` delivers from the front and leaves the rest: exactly `n` items, or fewer and an empty queue. */
  ghost predicate Delivers(items: seq<Bytes>, n: nat, delivered: seq<Bytes>, left: seq<Bytes>) {
    delivered + left == items && (|delivered| == n || (|delivered| < n && left == []))
  }

  lemma PollDelivers(s: Server, id: string, n: nat)
    ensures Delivers(Items(s, id), n, Out(s, Poll(id, n), id), Items(Next(s, Poll(id, n)), id))
  {
    hide BatchUpdate;
    var items := Items(s, id);
    assert items[..Take(items, n)] + items[Take(items, n)..] == items;
  }

  /** A clear leaves the queue live and empty, and every other queue as it was. */
  lemma ClearQueueMeans(s: Server, id: string)
    requires id in Live(s, QueueKind)
    ensures var s' := Next(s, ClearQueue(id));
      Live(s', QueueKind) == Live(s, QueueKind) && Items(s', id) == [] && s'.store.queues.objects - {id} == s.store.queues.objects - {id}
  {}

  lemma NothingDelivered(items: seq<Bytes>, n: nat, left: seq<Bytes>)
    requires n > 0 && Delivers(items, n, [], left)
    ensures items == []
  {}

  /** That leaves no choice. */
  lemma DeliveryIsDetermined(items: seq<Bytes>, n: nat, a: seq<Bytes>, b: seq<Bytes>, a': seq<Bytes>, b': seq<Bytes>)
    requires Delivers(items, n, a, b) && Delivers(items, n, a', b')
    ensures a == a' && b == b'
  {
    assert |a| == |a'|;
    assert a == items[..|a|] && a' == items[..|a'|] && b == items[|a|..] && b' == items[|a'|..];
  }

  // ---- the blocking get ----

  const POLL_INTERVAL: nat := 5_000_000 // nanoseconds

  function ExecFrom(s: Server, steps: seq<Step>): Server {
    if steps == [] then s else Next(ExecFrom(s, steps[..|steps| - 1]), steps[|steps| - 1])
  }

  /** The server just before poll `i` of a blocking get, when the other clients run `others(i)` before it. */
  function BeforePoll(s: Server, id: string, n: nat, others: nat -> seq<Step>, i: nat): Server {
    ExecFrom(if i == 0 then s else Next(BeforePoll(s, id, n, others, i - 1), Poll(id, n)), others(i))
  }

  function Paced(sleeps: nat): nat { sleeps * 5_000_000 }

  /** No sleep between two polls is shorter than the interval. */
  ghost predicate IdealClock(clock: nat -> nat) {
    clock(0) <= clock(1) && forall i: nat, j: nat :: 1 <= i && j == i + 1 ==> clock(i) + POLL_INTERVAL <= clock(j)
  }

  /** Polls 0 to `polls - 1` all found the queue live and empty. */
  ghost predicate FoundNothing(s: Server, id: string, n: nat, others: nat -> seq<Step>, polls: nat) {
    forall i: nat :: i < polls ==>
      var seen := BeforePoll(s, id, n, others, i); id in Live(seen, QueueKind) && Items(seen, id) == []
  }

  /**
   * `queue_get`: poll until something arrives or the window closes. `clock(0)` is the reading that sets the
   * deadline and `clock(i + 1)` the one taken after poll `i`. The last poll alone takes anything.
   */
  method QueueGet(s: Server, id: string, nValues: int, timeout: int, clock: nat -> nat, others: nat -> seq<Step>)
    returns (r: Result<seq<Bytes>, ()>, polls: nat, s': Server)
    requires IdealClock(clock)
    ensures var window := if timeout > 0 then timeout else 0;
      && 1 <= polls <= (window + POLL_INTERVAL - 1) / POLL_INTERVAL + 1
      && (r.Ok? && r.value == [] ==> clock(polls) >= clock(0) + window)
    ensures var n := if nValues > 1 then nValues else 1;
      && FoundNothing(s, id, n, others, polls - 1)
      && var seen := BeforePoll(s, id, n, others, polls - 1);
      && r.Ok? == (id in Live(seen, QueueKind))
      && (r.Ok? ==> Delivers(Items(seen, id), n, r.value, Items(s', id)))
      && s' == Next(seen, Poll(id, n))
  {
    hide Next, ExecFrom, Out, Items, Delivers, Live;
    var n := if nValues > 1 then nValues else 1;
    var window := if timeout > 0 then timeout else 0;
    var deadline := clock(0) + window;
    polls, s' := 0, s;
    while true
      invariant s' == (if polls == 0 then s else Next(BeforePoll(s, id, n, others, polls - 1), Poll(id, n)))
      invariant FoundNothing(s, id, n, others, polls)
      invariant polls > 0 ==> clock(0) + Paced(polls - 1) <= clock(polls) < deadline
      decreases window - Paced(polls)
    {
      s' := ExecFrom(s', others(polls));
      assert s' == BeforePoll(s, id, n, others, polls);
      polls := polls + 1;
      assert polls > 1 ==> clock(polls - 1) + POLL_INTERVAL <= clock(polls);
      if id !in Live(s', QueueKind) {
        s' := Next(s', Poll(id, n));
        return Err(()), polls, s';
      }
      var values := Out(s', Poll(id, n), id);
      PollDelivers(s', id, n);
      if values == [] {
        NothingDelivered(Items(s', id), n, Items(Next(s', Poll(id, n)), id));
      }
      s' := Next(s', Poll(id, n));
      if values != [] || clock(polls) >= deadline {
        return Ok(values), polls, s';
      }
    }
  }
}
