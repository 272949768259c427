/**
 * The run path: tasks resolve function ids at the same time through a map lock, one once-cell per key, a client lock and
 * a publish-set lock. Every step below is what happens between two awaits of one task.
 */
module RunPath {
  import opened Wrappers
  import opened ObjectTags

  type Id = string

  datatype FunctionOptions = FunctionOptions(cache: Option<bool>, timeoutSecs: Option<nat>, memoryMb: Option<nat>, rest: string)

  datatype Key = Key(entrypoint: string, options: FunctionOptions)

  /** `options` are the decorator configs; a name without one gets the defaults. */
  datatype App = App(options: map<string, FunctionOptions>, cache: bool, timeoutSecs: nat)

  datatype Work = Resolve(key: Key) | Deploy

  const NO_OPTIONS := FunctionOptions(None, None, None, "")
  const DESCRIBE_TAG := "__describe__"

  function Or<T>(o: Option<T>, fallback: T): T { if o.Some? then o.value else fallback }

  function Effective(app: App, o: FunctionOptions): FunctionOptions {
    o.(cache := Some(Or(o.cache, app.cache)), timeoutSecs := Some(Or(o.timeoutSecs, app.timeoutSecs)))
  }

  function Invoke(app: App, entrypoint: string): Work {
    var o := if entrypoint in app.options then app.options[entrypoint] else NO_OPTIONS;
    Resolve(Key(entrypoint, Effective(app, o)))
  }

  function Describe(app: App): Work {
    Resolve(Key(DESCRIBE_TAG, Effective(app, NO_OPTIONS.(memoryMb := Some(4096)))))
  }

  /**
   * Where a task is. `At…` is waiting for a lock; `Creating` and `Publishing` hold the client and publish-set locks and
   * the cell's permit, before and after the created function is recorded.
   */
  datatype Phase =
    | AtMap | InMap | AtCell | AtClient | AtPublished | Creating | Publishing(id: Id)
    | Resolved(id: Id) | Invoking(id: Id) | AtDeploy | Deploying | Finished

  /** `got` is what resolving returned. */
  datatype Task = Task(work: Work, phase: Phase, got: Option<Id>)

  datatype Cell = Cell(holder: Option<nat>, value: Option<Id>)

  /** `published` is the handle's own union, `server` the ids the last publish made invokable, `filled` a history. */
  datatype State = State(
    tasks: seq<Task>,
    mapLock: Option<nat>,
    clientLock: Option<nat>,
    publishedLock: Option<nat>,
    cells: map<Key, Cell>,
    published: map<string, Id>,
    server: set<Id>,
    filled: seq<Key>)

  /** `Stop` is an error, or being dropped; when publishing, the server may or may not have applied it. */
  datatype Step =
    | LockMap(i: nat) | FetchCell(i: nat) | TakeReady(i: nat) | TakePermit(i: nat) | LockClient(i: nat)
    | LockPublished(i: nat) | Create(i: nat, id: Id) | Publish(i: nat) | Finish(i: nat) | Stop(i: nat, applied: bool)

  function Init(works: seq<Work>): State {
    State(seq(|works|, i requires 0 <= i < |works| => Task(works[i], if works[i].Deploy? then AtDeploy else AtMap, None)),
          None, None, None, map[], map[], {}, [])
  }

  predicate HasCell(p: Phase) { p.AtCell? || HoldsPermit(p) || p.Resolved? || p.Invoking? }

  predicate HoldsPermit(p: Phase) { p.AtClient? || p.AtPublished? || HoldsPublished(p) }

  predicate HoldsPublished(p: Phase) { p.Creating? || p.Publishing? }

  predicate HoldsClient(p: Phase) { p.AtPublished? || HoldsPublished(p) || p.Invoking? || p.Deploying? }

  predicate WantsClient(p: Phase) { p.AtClient? || p.Resolved? || p.AtDeploy? }

  predicate Quiet(s: State) { s.mapLock.None? && s.clientLock.None? && s.publishedLock.None? }

  function CellOf(s: State, t: Task): Option<Cell> {
    if t.work.Resolve? && t.work.key in s.cells then Some(s.cells[t.work.key]) else None
  }

  predicate Enabled(s: State, step: Step) {
    step.i < |s.tasks| &&
    var t := s.tasks[step.i];
    match step
    case LockMap(_) => t.phase.AtMap? && s.mapLock.None?
    case FetchCell(_) => t.phase.InMap? && t.work.Resolve?
    case TakeReady(_) => t.phase.AtCell? && CellOf(s, t).Some? && CellOf(s, t).value.value.Some?
    case TakePermit(_) => t.phase.AtCell? && CellOf(s, t) == Some(Cell(None, None))
    case LockClient(_) => WantsClient(t.phase) && s.clientLock.None?
    case LockPublished(_) => t.phase.AtPublished? && s.publishedLock.None?
    case Create(_, _) => t.phase.Creating? && t.work.Resolve?
    case Publish(_) => t.phase.Publishing? && t.work.Resolve?
    case Finish(_) => t.phase.Invoking? || t.phase.Deploying?
    case Stop(_, applied) => !t.phase.Finished? && (applied ==> t.phase.Publishing?)
  }

  function Free(lock: Option<nat>, i: nat): Option<nat> { if lock == Some(i) then None else lock }

  /** Everything a task holds is released when its scope ends. */
  function Released(s: State, i: nat): State
    requires i < |s.tasks|
  {
    var t := s.tasks[i];
    var unlocked := s.(mapLock := Free(s.mapLock, i), clientLock := Free(s.clientLock, i), publishedLock := Free(s.publishedLock, i));
    if HoldsPermit(t.phase) && CellOf(s, t).Some? then
      unlocked.(cells := s.cells[t.work.key := s.cells[t.work.key].(holder := None)])
    else unlocked
  }

  function Moved(s: State, i: nat, p: Phase): State
    requires i < |s.tasks|
  {
    s.(tasks := s.tasks[i := s.tasks[i].(phase := p)])
  }

  function Next(s: State, step: Step): State
    requires Enabled(s, step)
  {
    var i := step.i;
    var t := s.tasks[i];
    match step
    case LockMap(_) => Moved(s, i, InMap).(mapLock := Some(i))
    case FetchCell(_) =>
      var k := t.work.key;
      Moved(s, i, AtCell).(mapLock := None, cells := if k in s.cells then s.cells else s.cells[k := Cell(None, None)])
    case TakeReady(_) =>
      var id := CellOf(s, t).value.value.value;
      s.(tasks := s.tasks[i := Task(t.work, Resolved(id), Some(id))])
    case TakePermit(_) => Moved(s, i, AtClient).(cells := s.cells[t.work.key := Cell(Some(i), None)])
    case LockClient(_) =>
      var p := match t.phase case AtClient => AtPublished case Resolved(id) => Invoking(id) case _ => Deploying;
      Moved(s, i, p).(clientLock := Some(i))
    case LockPublished(_) => Moved(s, i, Creating).(publishedLock := Some(i))
    case Create(_, id) => Moved(s, i, Publishing(id)).(published := s.published[Sanitize(t.work.key.entrypoint) := id])
    case Publish(_) =>
      var id := t.phase.id;
      s.(tasks := s.tasks[i := Task(t.work, Resolved(id), Some(id))], clientLock := None, publishedLock := None,
         cells := s.cells[t.work.key := Cell(None, Some(id))], server := s.published.Values, filled := s.filled + [t.work.key])
    case Finish(_) => Moved(s, i, Finished).(clientLock := None)
    case Stop(_, applied) =>
      var r := Moved(Released(s, i), i, Finished);
      if applied then r.(server := s.published.Values) else r
  }

  /** The state after a run, or nothing when some step was not enabled. */
  function Exec(s: State, steps: seq<Step>): Option<State> {
    if steps == [] then Some(s)
    else
      var before := Exec(s, steps[..|steps| - 1]);
      if before.Some? && Enabled(before.value, steps[|steps| - 1]) then Some(Next(before.value, steps[|steps| - 1])) else None
  }

  lemma ExecSnoc(s: State, steps: seq<Step>, step: Step)
    requires Exec(s, steps).Some? && Enabled(Exec(s, steps).value, step)
    ensures Exec(s, steps + [step]) == Some(Next(Exec(s, steps).value, step))
  {
    hide Enabled, Next;
    assert (steps + [step])[..|steps|] == steps;
  }

  lemma {:induction false} ExecConcat(s: State, a: seq<Step>, b: seq<Step>)
    requires Exec(s, a).Some? && Exec(Exec(s, a).value, b).Some?
    ensures Exec(s, a + b) == Exec(Exec(s, a).value, b)
  {
    hide Enabled, Next;
    if b == [] {
      assert a + b == a;
    } else {
      var init, last := b[..|b| - 1], b[|b| - 1];
      assert b == init + [last] && a + b == (a + init) + [last];
      ExecConcat(s, a, init);
      ExecSnoc(s, a + init, last);
    }
  }

  // ---- what every step keeps ----

  ghost predicate LocksOk(s: State) {
    && (s.mapLock.Some? ==> s.mapLock.value < |s.tasks|)
    && (s.clientLock.Some? ==> s.clientLock.value < |s.tasks|)
    && (s.publishedLock.Some? ==> s.publishedLock.value < |s.tasks|)
    && forall i: nat :: i < |s.tasks| ==> LocksAgree(s, i, s.tasks[i].phase)
  }

  ghost predicate LocksAgree(s: State, i: nat, p: Phase) {
    && (p.InMap? <==> s.mapLock == Some(i))
    && (HoldsClient(p) <==> s.clientLock == Some(i))
    && (HoldsPublished(p) <==> s.publishedLock == Some(i))
  }

  /** A deploy never touches a cell; a resolving task past the map has one, whose permit it holds or whose id it took. */
  ghost predicate TaskOk(s: State, i: nat, t: Task) {
    && (t.work.Deploy? ==> (t.phase.AtDeploy? || t.phase.Deploying? || t.phase.Finished?) && t.got.None?)
    && (t.work.Resolve? ==>
          && !t.phase.AtDeploy? && !t.phase.Deploying?
          && (HasCell(t.phase) ==> t.work.key in s.cells)
          && (HoldsPermit(t.phase) <==> CellOf(s, t).Some? && CellOf(s, t).value.holder == Some(i))
          && (t.got.Some? ==> CellOf(s, t).Some? && CellOf(s, t).value.value == t.got)
          && (t.phase.Resolved? || t.phase.Invoking? ==> t.got == Some(t.phase.id)))
  }

  ghost predicate TasksOk(s: State) {
    forall i: nat :: i < |s.tasks| ==> TaskOk(s, i, s.tasks[i])
  }

  ghost predicate Wanted(s: State, k: Key) {
    exists i :: 0 <= i < |s.tasks| && s.tasks[i].work == Resolve(k)
  }

  /** A cell is asked for by some task; a permit belongs to a task of that key, and only while the cell is empty. */
  ghost predicate CellOk(s: State, k: Key) {
    k in s.cells ==>
      && Wanted(s, k)
      && (s.cells[k].holder.Some? ==>
            && s.cells[k].value.None?
            && s.cells[k].holder.value < |s.tasks|
            && s.tasks[s.cells[k].holder.value].work == Resolve(k))
  }

  /** `filled` lists each filled cell once. */
  ghost predicate FilledOnce(s: State) {
    && (forall a, b :: 0 <= a < b < |s.filled| ==> s.filled[a] != s.filled[b])
    && (forall k :: k in s.filled <==> k in s.cells && s.cells[k].value.Some?)
  }

  ghost predicate Inv(s: State) {
    LocksOk(s) && TasksOk(s) && (forall k :: CellOk(s, k)) && FilledOnce(s)
  }

  // ---- each part of the invariant, step by step ----

  /** The step's own task, and then every other: nobody else loses or gains a lock. */
  lemma StepKeepsOwnLocks(s: State, step: Step)
    requires LocksOk(s) && Enabled(s, step)
    ensures LocksAgree(Next(s, step), step.i, Next(s, step).tasks[step.i].phase)
  {
    hide Sanitize;
    assert LocksAgree(s, step.i, s.tasks[step.i].phase);
    hide LocksOk;
  }

  /** A step takes a free lock for its task, gives one of its task's back, or leaves the lock alone. */
  predicate LockStep(old_: Option<nat>, new_: Option<nat>, i: nat) {
    new_ == old_ || (old_.None? && new_ == Some(i)) || (old_ == Some(i) && new_.None?)
  }

  lemma LocksChange(s: State, step: Step)
    requires LocksOk(s) && Enabled(s, step)
    ensures var s' := Next(s, step);
      && |s'.tasks| == |s.tasks| && step.i < |s.tasks|
      && LockStep(s.mapLock, s'.mapLock, step.i)
      && LockStep(s.clientLock, s'.clientLock, step.i)
      && LockStep(s.publishedLock, s'.publishedLock, step.i)
  {
    hide Sanitize;
    assert LocksAgree(s, step.i, s.tasks[step.i].phase);
  }

  lemma OthersStay(s: State, step: Step, j: nat)
    requires Enabled(s, step) && j < |s.tasks| && j != step.i
    ensures |Next(s, step).tasks| == |s.tasks| && Next(s, step).tasks[j] == s.tasks[j]
  {
    hide Sanitize;
  }

  lemma StepKeepsOtherLocks(s: State, step: Step, j: nat)
    requires LocksOk(s) && Enabled(s, step) && j < |s.tasks| && j != step.i
    ensures |Next(s, step).tasks| == |s.tasks|
    ensures Next(s, step).tasks[j] == s.tasks[j] && LocksAgree(Next(s, step), j, s.tasks[j].phase)
  {
    hide Next, Enabled;
    assert LocksAgree(s, j, s.tasks[j].phase);
    OthersStay(s, step, j);
    LocksChange(s, step);
  }

  lemma StepKeepsLocks(s: State, step: Step)
    requires LocksOk(s) && Enabled(s, step)
    ensures LocksOk(Next(s, step))
  {
    var s' := Next(s, step);
    LocksChange(s, step);
    StepKeepsOwnLocks(s, step);
    hide Next, Enabled;
    forall j: nat | j < |s'.tasks| && j != step.i ensures LocksAgree(s', j, s'.tasks[j].phase) {
      StepKeepsOtherLocks(s, step, j);
    }
    hide LocksAgree;
  }

  lemma StepKeepsOwnTask(s: State, step: Step)
    requires TasksOk(s) && Enabled(s, step)
    ensures TaskOk(Next(s, step), step.i, Next(s, step).tasks[step.i])
  {
    hide Sanitize;
    assert TaskOk(s, step.i, s.tasks[step.i]);
  }

  /** Another task's cell keeps its permit, and keeps its id once filled. */
  lemma StepKeepsOtherTask(s: State, step: Step, j: nat)
    requires TasksOk(s) && Enabled(s, step) && j < |s.tasks| && j != step.i
    requires s.tasks[j].work.Resolve? ==> CellOk(s, s.tasks[j].work.key)
    ensures Next(s, step).tasks[j] == s.tasks[j] && TaskOk(Next(s, step), j, s.tasks[j])
  {
    hide Sanitize, Wanted;
    assert TaskOk(s, step.i, s.tasks[step.i]) && TaskOk(s, j, s.tasks[j]);
  }

  lemma WorksStay(s: State, step: Step, j: nat)
    requires Enabled(s, step) && j < |s.tasks|
    ensures |Next(s, step).tasks| == |s.tasks| && Next(s, step).tasks[j].work == s.tasks[j].work
  {
    hide Sanitize;
  }

  lemma WantedStays(s: State, step: Step, k: Key)
    requires Enabled(s, step) && Wanted(s, k)
    ensures Wanted(Next(s, step), k)
  {
    hide Next, Enabled;
    var j :| 0 <= j < |s.tasks| && s.tasks[j].work == Resolve(k);
    WorksStay(s, step, j);
  }

  lemma StepKeepsCell(s: State, step: Step, k: Key)
    requires TasksOk(s) && CellOk(s, k) && Enabled(s, step)
    ensures CellOk(Next(s, step), k)
  {
    hide Sanitize;
    var t := s.tasks[step.i];
    assert TaskOk(s, step.i, t);
    if t.work == Resolve(k) {
      assert Wanted(s, k);
    }
    if Wanted(s, k) {
      WantedStays(s, step, k);
    }
    hide Wanted;
  }

  lemma StepKeepsFilled(s: State, step: Step)
    requires TasksOk(s) && (forall k :: CellOk(s, k)) && FilledOnce(s) && Enabled(s, step)
    ensures FilledOnce(Next(s, step))
  {
    hide Sanitize, Wanted;
    var t := s.tasks[step.i];
    assert TaskOk(s, step.i, t);
    if t.work.Resolve? {
      assert CellOk(s, t.work.key);
    }
  }

  lemma StepKeepsInv(s: State, step: Step)
    requires Inv(s) && Enabled(s, step)
    ensures Inv(Next(s, step))
  {
    hide LocksOk, FilledOnce, CellOk, TaskOk;
    var s' := Next(s, step);
    StepKeepsLocks(s, step);
    StepKeepsFilled(s, step);
    forall k ensures CellOk(s', k) {
      StepKeepsCell(s, step, k);
    }
    assert |s'.tasks| == |s.tasks|;
    forall j: nat | j < |s'.tasks| ensures TaskOk(s', j, s'.tasks[j]) {
      if j == step.i {
        StepKeepsOwnTask(s, step);
      } else {
        StepKeepsOtherTask(s, step, j);
      }
    }
  }

  lemma InitHolds(works: seq<Work>)
    ensures Inv(Init(works))
  {}

  lemma {:induction false} RunKeepsInv(works: seq<Work>, steps: seq<Step>)
    requires Exec(Init(works), steps).Some?
    ensures Inv(Exec(Init(works), steps).value)
  {
    hide Enabled, Next, Inv;
    if steps == [] {
      InitHolds(works);
    } else {
      RunKeepsInv(works, steps[..|steps| - 1]);
      StepKeepsInv(Exec(Init(works), steps[..|steps| - 1]).value, steps[|steps| - 1]);
    }
  }
}
