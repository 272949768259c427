/** What holds in every interleaving of the run path: single flight, invokable ids, no deadlock, every run ends. */
module RunPathLaws {
  import opened Wrappers
  import opened ObjectTags
  import opened RunPath

  // ---- single flight ----

  /**
   * In every reachable state no key was filled twice, although creates fail and are retried and tasks are dropped; and
   * two tasks that resolved the same key got the same id, the one still in its cell.
   */
  lemma SingleFlight(works: seq<Work>, steps: seq<Step>)
    requires Exec(Init(works), steps).Some?
    ensures var s := Exec(Init(works), steps).value;
      && (forall a, b :: 0 <= a < b < |s.filled| ==> s.filled[a] != s.filled[b])
      && (forall i, j :: 0 <= i < |s.tasks| && 0 <= j < |s.tasks| && s.tasks[i].work == s.tasks[j].work ==>
            s.tasks[i].got.Some? && s.tasks[j].got.Some? ==> s.tasks[i].got == s.tasks[j].got)
      && (forall i :: 0 <= i < |s.tasks| && s.tasks[i].got.Some? ==>
            CellOf(s, s.tasks[i]).Some? && CellOf(s, s.tasks[i]).value.value == s.tasks[i].got)
  {
    RunKeepsInv(works, steps);
    var s := Exec(Init(works), steps).value;
    hide Exec, CellOk, LocksOk;
    forall i: nat | i < |s.tasks| && s.tasks[i].got.Some?
      ensures CellOf(s, s.tasks[i]).Some? && CellOf(s, s.tasks[i]).value.value == s.tasks[i].got
    {
      assert TaskOk(s, i, s.tasks[i]);
    }
  }

  // ---- every resolved id stays invokable ----

  ghost predicate DistinctTags(works: seq<Work>) {
    forall i, j :: 0 <= i < |works| && 0 <= j < |works| ==> Apart(works[i], works[j])
  }

  predicate Apart(a: Work, b: Work) {
    a.Resolve? && b.Resolve? && Sanitize(a.key.entrypoint) == Sanitize(b.key.entrypoint) ==> a == b
  }

  /** Every id in a filled cell is in the published set. */
  ghost predicate Invokable(s: State) {
    forall k :: k in s.cells && s.cells[k].value.Some? ==> s.cells[k].value.value in s.server
  }

  ghost predicate AlwaysInvokable(works: seq<Work>) {
    forall steps :: Exec(Init(works), steps).Some? ==> Invokable(Exec(Init(works), steps).value)
  }

  predicate RecordedAs(s: State, k: Key, id: Id) {
    var tag := Sanitize(k.entrypoint);
    tag in s.published && s.published[tag] == id
  }

  ghost predicate CellRecorded(s: State, k: Key) {
    k in s.cells && s.cells[k].value.Some? ==>
      RecordedAs(s, k, s.cells[k].value.value) && s.cells[k].value.value in s.server
  }

  ghost predicate TaskRecorded(s: State, t: Task) {
    t.phase.Publishing? && t.work.Resolve? ==> RecordedAs(s, t.work.key, t.phase.id)
  }

  ghost predicate Recorded(s: State) {
    (forall k :: CellRecorded(s, k)) && (forall i :: 0 <= i < |s.tasks| ==> TaskRecorded(s, s.tasks[i]))
  }

  ghost predicate TasksApart(s: State) {
    forall i, j :: 0 <= i < |s.tasks| && 0 <= j < |s.tasks| ==> Apart(s.tasks[i].work, s.tasks[j].work)
  }

  /** Recording one task's id leaves the tag of every other key alone. */
  lemma StepKeepsCellRecorded(s: State, step: Step, k: Key)
    requires Enabled(s, step) && CellRecorded(s, k) && CellOk(s, k)
    requires var t := s.tasks[step.i]; TaskOk(s, step.i, t) && TaskRecorded(s, t) && (k in s.cells ==> Apart(t.work, Resolve(k)))
    requires forall k' :: CellRecorded(s, k')
    ensures CellRecorded(Next(s, step), k)
  {
    hide Sanitize, Wanted;
  }

  lemma CellKeyApart(s: State, i: nat, k: Key)
    requires CellOk(s, k) && TasksApart(s) && i < |s.tasks| && k in s.cells
    ensures Apart(s.tasks[i].work, Resolve(k))
  {
    hide Apart;
    var j :| 0 <= j < |s.tasks| && s.tasks[j].work == Resolve(k);
    assert Apart(s.tasks[i].work, s.tasks[j].work);
  }

  lemma StepKeepsTaskRecorded(s: State, step: Step, j: nat)
    requires Inv(s) && Enabled(s, step) && Recorded(s) && j < |s.tasks|
    ensures TaskRecorded(Next(s, step), Next(s, step).tasks[j])
  {
    hide FilledOnce, Sanitize, CellOk, TaskOk;
    assert TaskRecorded(s, s.tasks[j]);
    assert LocksAgree(s, step.i, s.tasks[step.i].phase) && LocksAgree(s, j, s.tasks[j].phase);
  }

  lemma StepKeepsRecorded(s: State, step: Step)
    requires Inv(s) && Enabled(s, step) && TasksApart(s) && Recorded(s)
    ensures TasksApart(Next(s, step)) && Recorded(Next(s, step))
  {
    var s' := Next(s, step);
    var t := s.tasks[step.i];
    assert TaskOk(s, step.i, t) && TaskRecorded(s, t);
    hide TaskOk, TaskRecorded, CellOk, CellRecorded, LocksOk, FilledOnce;
    forall k ensures CellRecorded(s', k) {
      assert CellOk(s, k) && CellRecorded(s, k);
      if k in s.cells {
        CellKeyApart(s, step.i, k);
      }
      StepKeepsCellRecorded(s, step, k);
    }
    SameWorks(s, step);
    forall i: nat | i < |s'.tasks| ensures TaskRecorded(s', s'.tasks[i]) {
      StepKeepsTaskRecorded(s, step, i);
    }
    hide *;
  }

  lemma SameWorks(s: State, step: Step)
    requires Enabled(s, step)
    ensures |Next(s, step).tasks| == |s.tasks|
    ensures forall i :: 0 <= i < |s.tasks| ==> Next(s, step).tasks[i].work == s.tasks[i].work
    ensures TasksApart(s) ==> TasksApart(Next(s, step))
  {}

  lemma {:induction false} RunKeepsRecorded(works: seq<Work>, steps: seq<Step>)
    requires DistinctTags(works) && Exec(Init(works), steps).Some?
    ensures var s := Exec(Init(works), steps).value; TasksApart(s) && Recorded(s)
  {
    hide Enabled, Next, Inv, TasksApart, Recorded;
    if steps == [] {
      InitRecorded(works);
    } else {
      var init := steps[..|steps| - 1];
      RunKeepsRecorded(works, init);
      RunKeepsInv(works, init);
      StepKeepsRecorded(Exec(Init(works), init).value, steps[|steps| - 1]);
    }
  }

  lemma InitRecorded(works: seq<Work>)
    requires DistinctTags(works)
    ensures TasksApart(Init(works)) && Recorded(Init(works))
  {
    forall i, j | 0 <= i < |works| && 0 <= j < |works| ensures Apart(works[i], works[j]) {}
  }

  // ---- and not otherwise ----

  /** What one task alone does to a key nobody asked for yet. */
  function Solo(i: nat, id: Id): seq<Step> {
    [LockMap(i), FetchCell(i), TakePermit(i), LockClient(i), LockPublished(i), Create(i, id), Publish(i)]
  }

  /** `t` is task `i` afterwards; the locks are free again and the rest of the tasks did not move. */
  ghost predicate OnlyMoved(s: State, s': State, i: nat, t: Task) {
    && Quiet(s') && |s'.tasks| == |s.tasks| && i < |s.tasks|
    && s'.tasks[i] == t && forall j :: 0 <= j < |s.tasks| && j != i ==> s'.tasks[j] == s.tasks[j]
  }

  lemma {:induction false} Unfold3(s: State, a: Step, b: Step, c: Step)
    requires Enabled(s, a) && Enabled(Next(s, a), b) && Enabled(Next(Next(s, a), b), c)
    ensures Exec(s, [a, b, c]) == Some(Next(Next(Next(s, a), b), c))
  {
    hide Enabled, Next;
    ExecSnoc(s, [], a);
    assert [] + [a] == [a];
    ExecSnoc(s, [a], b);
    assert [a] + [b] == [a, b];
    ExecSnoc(s, [a, b], c);
    assert [a, b] + [c] == [a, b, c];
  }

  lemma SoloReachesPermit(s: State, i: nat, k: Key) returns (s': State)
    requires Quiet(s) && i < |s.tasks| && s.tasks[i] == Task(Resolve(k), AtMap, None) && k !in s.cells
    ensures Exec(s, [LockMap(i), FetchCell(i), TakePermit(i)]) == Some(s')
    ensures OnlyMoved(s, s', i, Task(Resolve(k), AtClient, None))
    ensures s'.cells == s.cells[k := Cell(Some(i), None)] && s'.published == s.published
  {
    var s1 := Next(s, LockMap(i));
    var s2 := Next(s1, FetchCell(i));
    s' := Next(s2, TakePermit(i));
    Unfold3(s, LockMap(i), FetchCell(i), TakePermit(i));
  }

  lemma SoloCreates(s: State, i: nat, k: Key, id: Id) returns (s': State)
    requires Quiet(s) && i < |s.tasks| && s.tasks[i] == Task(Resolve(k), AtClient, None)
    ensures Exec(s, [LockClient(i), LockPublished(i), Create(i, id)]) == Some(s')
    ensures |s'.tasks| == |s.tasks| && s'.tasks[i] == Task(Resolve(k), Publishing(id), None)
    ensures forall j :: 0 <= j < |s.tasks| && j != i ==> s'.tasks[j] == s.tasks[j]
    ensures s'.mapLock.None? && s'.cells == s.cells && s'.published == s.published[Sanitize(k.entrypoint) := id]
  {
    hide Sanitize;
    var s1 := Next(s, LockClient(i));
    var s2 := Next(s1, LockPublished(i));
    s' := Next(s2, Create(i, id));
    Unfold3(s, LockClient(i), LockPublished(i), Create(i, id));
  }

  lemma SoloPublishes(s: State, i: nat, k: Key, id: Id) returns (s': State)
    requires i < |s.tasks| && s.tasks[i] == Task(Resolve(k), Publishing(id), None) && s.mapLock.None?
    ensures Enabled(s, Publish(i)) && s' == Next(s, Publish(i))
    ensures OnlyMoved(s, s', i, Task(Resolve(k), Resolved(id), Some(id)))
    ensures s'.cells == s.cells[k := Cell(None, Some(id))] && s'.published == s.published && s'.server == s'.published.Values
  {
    s' := Next(s, Publish(i));
  }

  lemma SoloResolves(s: State, i: nat, k: Key, id: Id) returns (s': State)
    requires Quiet(s) && i < |s.tasks| && s.tasks[i] == Task(Resolve(k), AtMap, None) && k !in s.cells
    ensures Exec(s, Solo(i, id)) == Some(s')
    ensures OnlyMoved(s, s', i, Task(Resolve(k), Resolved(id), Some(id)))
    ensures s'.cells == s.cells[k := Cell(None, Some(id))]
    ensures s'.published == s.published[Sanitize(k.entrypoint) := id] && s'.server == s'.published.Values
  {
    hide Enabled, Next, Sanitize, Exec;
    var s1 := SoloReachesPermit(s, i, k);
    var s2 := SoloCreates(s1, i, k, id);
    s' := SoloPublishes(s2, i, k, id);
    assert s'.cells == s.cells[k := Cell(None, Some(id))];
    var first, second := [LockMap(i), FetchCell(i), TakePermit(i)], [LockClient(i), LockPublished(i), Create(i, id)];
    ExecConcat(s, first, second);
    ExecSnoc(s, first + second, Publish(i));
    assert first + second + [Publish(i)] == Solo(i, id);
  }

  /** Two keys with one tag: resolving the second takes the first out of the published set, though its cell is filled. */
  lemma SharedTagUnpublishes(works: seq<Work>, i: nat, j: nat)
    requires i < |works| && j < |works| && !Apart(works[i], works[j])
    ensures var r := Exec(Init(works), Solo(i, "first") + Solo(j, "second"));
      r.Some? && !Invokable(r.value)
  {
    hide Exec, Sanitize, Next, Enabled;
    var s, a, b := Init(works), works[i].key, works[j].key;
    var s1 := SoloResolves(s, i, a, "first");
    var s2 := SoloResolves(s1, j, b, "second");
    ExecConcat(s, Solo(i, "first"), Solo(j, "second"));
    assert s2.published == map[Sanitize(a.entrypoint) := "second"];
    assert "first" !in s2.server;
    assert s2.cells[a].value == Some("first");
  }

  lemma RecordedMeansInvokable(s: State)
    requires Recorded(s)
    ensures Invokable(s)
  {
    forall k | k in s.cells && s.cells[k].value.Some? ensures s.cells[k].value.value in s.server {
      assert CellRecorded(s, k);
    }
  }

  /** Every resolved id is invokable in every reachable state exactly when different keys have different object tags. */
  lemma AlwaysInvokableIff(works: seq<Work>)
    ensures AlwaysInvokable(works) <==> DistinctTags(works)
  {
    hide Exec, Init, Apart;
    if DistinctTags(works) {
      forall steps | Exec(Init(works), steps).Some? ensures Invokable(Exec(Init(works), steps).value) {
        RunKeepsRecorded(works, steps);
        RecordedMeansInvokable(Exec(Init(works), steps).value);
      }
    } else {
      var i, j :| 0 <= i < |works| && 0 <= j < |works| && !Apart(works[i], works[j]);
      SharedTagUnpublishes(works, i, j);
    }
  }

  predicate Usual(app: App, w: Work) {
    || w.Deploy? || w == Describe(app)
    || (Plain(w.key.entrypoint) && w.key.entrypoint != DESCRIBE_TAG && w == Invoke(app, w.key.entrypoint))
  }

  lemma UsualPairApart(app: App, a: Work, b: Work)
    requires Usual(app, a) && Usual(app, b)
    ensures Apart(a, b)
  {
    hide Effective;
    assert Plain(DESCRIBE_TAG);
  }

  /** Invokes of Rust-like names, describes and deploys of one app never share a tag. */
  lemma UsualWorksAreApart(app: App, works: seq<Work>)
    requires forall i :: 0 <= i < |works| ==> Usual(app, works[i])
    ensures DistinctTags(works) && AlwaysInvokable(works)
  {
    forall i, j | 0 <= i < |works| && 0 <= j < |works| ensures Apart(works[i], works[j]) {
      hide AlwaysInvokable;
      UsualPairApart(app, works[i], works[j]);
    }
    AlwaysInvokableIff(works);
  }

  // ---- a server with one id per tag ----

  /** Every create of the run is answered with the id that belongs to the tag. */
  ghost predicate AnsweredByTag(works: seq<Work>, steps: seq<Step>, idOf: string -> Id) {
    forall n :: 0 <= n < |steps| ==> StepByTag(works, steps[n], idOf)
  }

  predicate StepByTag(works: seq<Work>, step: Step, idOf: string -> Id) {
    step.Create? && step.i < |works| && works[step.i].Resolve? ==>
      step.id == idOf(Sanitize(works[step.i].key.entrypoint))
  }

  ghost predicate HasTagId(s: State, k: Key, id: Id, idOf: string -> Id) {
    Sanitize(k.entrypoint) in s.published && id == idOf(Sanitize(k.entrypoint))
  }

  ghost predicate CellByTag(s: State, k: Key, idOf: string -> Id) {
    k in s.cells && s.cells[k].value.Some? ==>
      HasTagId(s, k, s.cells[k].value.value, idOf) && s.cells[k].value.value in s.server
  }

  ghost predicate TaskByTag(s: State, t: Task, idOf: string -> Id) {
    t.phase.Publishing? && t.work.Resolve? ==> HasTagId(s, t.work.key, t.phase.id, idOf)
  }

  ghost predicate IdsByTag(s: State, idOf: string -> Id) {
    && (forall tag :: tag in s.published ==> s.published[tag] == idOf(tag))
    && (forall k :: CellByTag(s, k, idOf))
    && (forall i :: 0 <= i < |s.tasks| ==> TaskByTag(s, s.tasks[i], idOf))
  }

  lemma StepKeepsCellByTag(s: State, works: seq<Work>, step: Step, k: Key, idOf: string -> Id)
    requires IdsByTag(s, idOf) && Enabled(s, step) && StepByTag(works, step, idOf)
    requires |works| == |s.tasks| && s.tasks[step.i].work == works[step.i]
    ensures CellByTag(Next(s, step), k, idOf)
  {
    hide Sanitize;
    assert CellByTag(s, k, idOf) && TaskByTag(s, s.tasks[step.i], idOf);
  }

  lemma StepKeepsTaskByTag(s: State, works: seq<Work>, step: Step, j: nat, idOf: string -> Id)
    requires IdsByTag(s, idOf) && Enabled(s, step) && StepByTag(works, step, idOf) && j < |s.tasks|
    requires |works| == |s.tasks| && s.tasks[step.i].work == works[step.i]
    ensures TaskByTag(Next(s, step), Next(s, step).tasks[j], idOf)
  {
    hide Sanitize;
    assert TaskByTag(s, s.tasks[j], idOf) && TaskByTag(s, s.tasks[step.i], idOf);
  }

  lemma StepKeepsIdsByTag(s: State, works: seq<Work>, step: Step, idOf: string -> Id)
    requires IdsByTag(s, idOf) && Enabled(s, step) && StepByTag(works, step, idOf)
    requires |works| == |s.tasks| && s.tasks[step.i].work == works[step.i]
    ensures IdsByTag(Next(s, step), idOf)
  {
    var s' := Next(s, step);
    SameWorks(s, step);
    assert forall tag :: tag in s'.published ==> s'.published[tag] == idOf(tag);
    forall k ensures CellByTag(s', k, idOf) {
      StepKeepsCellByTag(s, works, step, k, idOf);
    }
    forall j: nat | j < |s'.tasks| ensures TaskByTag(s', s'.tasks[j], idOf) {
      StepKeepsTaskByTag(s, works, step, j, idOf);
    }
    hide Next, Enabled, CellByTag, TaskByTag;
  }

  lemma {:induction false} RunKeepsIdsByTag(works: seq<Work>, steps: seq<Step>, idOf: string -> Id)
    requires Exec(Init(works), steps).Some? && AnsweredByTag(works, steps, idOf)
    ensures var s := Exec(Init(works), steps).value;
      IdsByTag(s, idOf) && |s.tasks| == |works| && forall i :: 0 <= i < |works| ==> s.tasks[i].work == works[i]
  {
    hide Enabled, Next, IdsByTag, StepByTag;
    if steps == [] {
      InitIdsByTag(works, idOf);
    } else {
      var init, last := steps[..|steps| - 1], steps[|steps| - 1];
      assert forall n :: 0 <= n < |init| ==> init[n] == steps[n];
      RunKeepsIdsByTag(works, init, idOf);
      var s := Exec(Init(works), init).value;
      StepInRange(s, last);
      StepKeepsIdsByTag(s, works, last, idOf);
      SameWorks(s, last);
    }
  }

  lemma StepInRange(s: State, step: Step)
    requires Enabled(s, step)
    ensures step.i < |s.tasks|
  {}

  lemma InitIdsByTag(works: seq<Work>, idOf: string -> Id)
    ensures IdsByTag(Init(works), idOf)
  {}

  /** A server that answers every create under a tag with the same id keeps every resolved id invokable, shared tags or not. */
  lemma OneIdPerTagIsEnough(works: seq<Work>, steps: seq<Step>, idOf: string -> Id)
    requires Exec(Init(works), steps).Some? && AnsweredByTag(works, steps, idOf)
    ensures Invokable(Exec(Init(works), steps).value)
  {
    hide Exec, Init;
    RunKeepsIdsByTag(works, steps, idOf);
    var s := Exec(Init(works), steps).value;
    forall k | k in s.cells && s.cells[k].value.Some? ensures s.cells[k].value.value in s.server {
      assert CellByTag(s, k, idOf);
    }
  }

  // ---- no deadlock ----

  /**
   * Some task can take an ordinary step unless all are finished: following what each waits for climbs from the map lock
   * through a cell's permit and the client lock to the publish-set lock, whose holder waits for no one.
   */
  lemma NoDeadlock(s: State, waiting: nat) returns (step: Step)
    requires Inv(s) && waiting < |s.tasks| && !s.tasks[waiting].phase.Finished?
    ensures Enabled(s, step) && !step.Stop?
  {
    hide FilledOnce;
    if s.publishedLock.Some? {
      step := PublisherMoves(s, s.publishedLock.value);
    } else if s.clientLock.Some? {
      step := ClientHolderMoves(s, s.clientLock.value);
    } else {
      step := UnlockedMoves(s, waiting);
    }
  }

  lemma PublisherMoves(s: State, i: nat) returns (step: Step)
    requires Inv(s) && s.publishedLock == Some(i)
    ensures Enabled(s, step) && !step.Stop?
  {
    assert LocksAgree(s, i, s.tasks[i].phase) && TaskOk(s, i, s.tasks[i]);
    return if s.tasks[i].phase.Creating? then Create(i, "") else Publish(i);
  }

  lemma ClientHolderMoves(s: State, i: nat) returns (step: Step)
    requires Inv(s) && s.publishedLock.None? && s.clientLock == Some(i)
    ensures Enabled(s, step) && !step.Stop?
  {
    assert LocksAgree(s, i, s.tasks[i].phase);
    return if s.tasks[i].phase.AtPublished? then LockPublished(i) else Finish(i);
  }

  lemma UnlockedMoves(s: State, i: nat) returns (step: Step)
    requires Inv(s) && s.publishedLock.None? && s.clientLock.None?
    requires i < |s.tasks| && !s.tasks[i].phase.Finished?
    ensures Enabled(s, step) && !step.Stop?
  {
    var t := s.tasks[i];
    assert LocksAgree(s, i, t.phase) && TaskOk(s, i, t);
    if t.phase.AtMap? {
      if s.mapLock.Some? {
        var j := s.mapLock.value;
        assert LocksAgree(s, j, s.tasks[j].phase) && TaskOk(s, j, s.tasks[j]);
        return FetchCell(j);
      }
      return LockMap(i);
    } else if t.phase.InMap? {
      return FetchCell(i);
    } else if t.phase.AtCell? {
      step := CellWaiterMoves(s, i);
    } else {
      return LockClient(i);
    }
  }

  lemma CellWaiterMoves(s: State, i: nat) returns (step: Step)
    requires Inv(s) && s.publishedLock.None? && s.clientLock.None?
    requires i < |s.tasks| && s.tasks[i].phase.AtCell?
    ensures Enabled(s, step) && !step.Stop?
  {
    assert TaskOk(s, i, s.tasks[i]);
    var k := s.tasks[i].work.key;
    assert CellOk(s, k);
    if s.cells[k].value.Some? {
      return TakeReady(i);
    } else if s.cells[k].holder.Some? {
      var j := s.cells[k].holder.value;
      assert TaskOk(s, j, s.tasks[j]) && LocksAgree(s, j, s.tasks[j].phase);
      return LockClient(j);
    }
    return TakePermit(i);
  }

  // ---- every run ends ----

  function Rank(p: Phase): nat {
    match p
    case AtMap => 9 case InMap => 8 case AtCell => 7 case AtClient => 6 case AtPublished => 5
    case Creating => 4 case Publishing(_) => 3 case Resolved(_) => 2 case Invoking(_) => 1
    case AtDeploy => 2 case Deploying => 1 case Finished => 0
  }

  function Left(tasks: seq<Task>): nat {
    if tasks == [] then 0 else Left(tasks[..|tasks| - 1]) + Rank(tasks[|tasks| - 1].phase)
  }

  lemma {:induction false} LeftAfter(tasks: seq<Task>, i: nat, t: Task)
    requires i < |tasks|
    ensures Left(tasks[i := t]) + Rank(tasks[i].phase) == Left(tasks) + Rank(t.phase)
  {
    var init := tasks[..|tasks| - 1];
    if i < |init| {
      LeftAfter(init, i, t);
      assert tasks[i := t][..|tasks| - 1] == init[i := t];
    } else {
      assert tasks[i := t][..|tasks| - 1] == init;
    }
  }

  lemma {:induction false} LeftIsNoneWhenFinished(tasks: seq<Task>)
    ensures Left(tasks) == 0 <==> forall i :: 0 <= i < |tasks| ==> tasks[i].phase.Finished?
    ensures Left(tasks) <= 9 * |tasks|
  {
    if tasks != [] {
      var init := tasks[..|tasks| - 1];
      LeftIsNoneWhenFinished(init);
      assert forall i :: 0 <= i < |tasks| ==> tasks[i] == if i < |init| then init[i] else tasks[|tasks| - 1];
    }
  }

  lemma StepDescends(s: State, step: Step)
    requires Enabled(s, step)
    ensures Left(Next(s, step).tasks) < Left(s.tasks)
  {
    var t := Next(s, step).tasks[step.i];
    StepMoves(s, step);
    hide Next, Enabled, Left;
    LeftAfter(s.tasks, step.i, t);
  }

  lemma StepMoves(s: State, step: Step)
    requires Enabled(s, step)
    ensures var t := Next(s, step).tasks[step.i];
      && Next(s, step).tasks == s.tasks[step.i := t]
      && Rank(t.phase) < Rank(s.tasks[step.i].phase)
      && (s.tasks[step.i].got.Some? ==> t.got.Some?)
  {}

  /** However it is scheduled, a run of `n` tasks takes at most `9n` steps. */
  lemma {:induction false} RunsAreBounded(s: State, steps: seq<Step>)
    requires Exec(s, steps).Some?
    ensures |steps| + Left(Exec(s, steps).value.tasks) <= Left(s.tasks) <= 9 * |s.tasks|
  {
    hide Next, Enabled, Left;
    LeftIsNoneWhenFinished(s.tasks);
    if steps != [] {
      var init := steps[..|steps| - 1];
      RunsAreBounded(s, init);
      StepDescends(Exec(s, init).value, steps[|steps| - 1]);
    }
  }

  ghost predicate Stopless(steps: seq<Step>) { forall i :: 0 <= i < |steps| ==> !steps[i].Stop? }

  /** A task still on its way will hold an id unless it is a deploy; one that is finished keeps what it got. */
  ghost predicate Served(s: State, s': State) {
    |s'.tasks| == |s.tasks| && forall i :: 0 <= i < |s.tasks| ==> ServedOne(s.tasks[i], s'.tasks[i])
  }

  predicate ServedOne(t: Task, t': Task) {
    && t'.work == t.work && t'.phase.Finished?
    && (t.got.Some? || (t.work.Resolve? && !t.phase.Finished?) ==> t'.got.Some?)
  }

  lemma StepTowardsServed(s: State, step: Step, s'': State)
    requires Inv(s) && Enabled(s, step) && !step.Stop? && Served(Next(s, step), s'')
    ensures Served(s, s'')
  {
    var s' := Next(s, step);
    StepMoves(s, step);
    assert TaskOk(s, step.i, s.tasks[step.i]);
    forall i | 0 <= i < |s.tasks| ensures ServedOne(s.tasks[i], s''.tasks[i]) {
      assert ServedOne(s'.tasks[i], s''.tasks[i]);
    }
  }

  /** From every reachable state, without errors or drops, all tasks finish and every waiting one resolves. */
  lemma {:induction false} AllCanFinish(s: State) returns (steps: seq<Step>)
    requires Inv(s)
    ensures Stopless(steps) && Exec(s, steps).Some? && Served(s, Exec(s, steps).value)
    decreases Left(s.tasks)
  {
    hide Next, Enabled, Inv, Left;
    LeftIsNoneWhenFinished(s.tasks);
    if Left(s.tasks) == 0 {
      return [];
    }
    var i: nat :| i < |s.tasks| && !s.tasks[i].phase.Finished?;
    var step := NoDeadlock(s, i);
    StepDescends(s, step);
    StepKeepsInv(s, step);
    var s' := Next(s, step);
    var rest := AllCanFinish(s');
    ExecSnoc(s, [], step);
    assert [] + [step] == [step];
    ExecConcat(s, [step], rest);
    StepTowardsServed(s, step, Exec(s', rest).value);
    return [step] + rest;
  }
}
