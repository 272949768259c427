/** The handle of a connected app: the memo, the publish set, and `resolve_function` filling both in place. */
module RemoteHandles {
  import opened Wrappers
  import opened ObjectTags
  import opened RunPath

  /** How one try at the create sequence ends; a failed publish may still have reached the server. */
  datatype Outcome = ImageRejected | CreateFailed | PublishFailed(id: Id, applied: bool) | Provisioned(id: Id)

  /** How much longer than the function's own timeout a caller polls for its output, in seconds. */
  const DEADLINE_MARGIN: nat := 120

  class RemoteHandle {
    const app: App
    var functionIds: map<Key, Cell>
    var published: map<string, Id>
    var server: set<Id>
    /** The step model this handle is one view of; `steps` is the run so far. */
    ghost var model: State
    ghost var start: State
    ghost var steps: seq<Step>

    ghost predicate Valid()
      reads this
    {
      && Exec(start, steps) == Some(model)
      && model.cells == functionIds && model.published == published && model.server == server
    }

    ghost method Take(step: Step)
      requires Exec(start, steps) == Some(model) && Enabled(model, step)
      modifies this`model, this`steps
      ensures model == Next(old(model), step) && steps == old(steps) + [step] && Exec(start, steps) == Some(model)
    {
      ExecSnoc(start, steps, step);
      model, steps := Next(model, step), steps + [step];
    }

    /** The map section: the lock is held only to fetch or insert the key's cell. */
    method FetchCell(i: nat, key: Key)
      requires Valid() && Quiet(model) && i < |model.tasks| && model.tasks[i] == Task(Resolve(key), AtMap, None)
      modifies this`functionIds, this`model, this`steps
      ensures Valid() && Quiet(model)
      ensures functionIds == if key in old(functionIds) then old(functionIds) else old(functionIds)[key := Cell(None, None)]
      ensures model.tasks == old(model).tasks[i := Task(Resolve(key), AtCell, None)]
    {
      hide Exec;
      Take(LockMap(i));
      if key !in functionIds {
        functionIds := functionIds[key := Cell(None, None)];
      }
      Take(Step.FetchCell(i));
    }

    /** An error on the way: what the task holds is released and the cell stays empty. */
    method GiveUp(i: nat, key: Key)
      requires Valid() && i < |model.tasks| && HoldsPermit(model.tasks[i].phase) && model.tasks[i].work == Resolve(key)
      requires model.mapLock.None?
      requires Free(model.clientLock, i).None? && Free(model.publishedLock, i).None?
      requires key in functionIds && functionIds[key] == Cell(Some(i), None)
      modifies this`functionIds, this`model, this`steps
      ensures Valid() && Quiet(model) && functionIds == old(functionIds)[key := Cell(None, None)]
    {
      hide Exec, Sanitize;
      functionIds := functionIds[key := Cell(None, None)];
      Take(Stop(i, false));
    }

    /** The initializer of the once-cell: the client lock, the publish-set lock, then create, record and publish the union. */
    method EnsureFunction(i: nat, key: Key, outcome: Outcome) returns (r: Option<Id>)
      requires Valid() && Quiet(model) && i < |model.tasks| && model.tasks[i] == Task(Resolve(key), AtClient, None)
      requires key in functionIds && functionIds[key] == Cell(Some(i), None)
      modifies this`functionIds, this`published, this`server, this`model, this`steps
      ensures Valid() && Quiet(model)
      ensures r == if outcome.Provisioned? then Some(outcome.id) else None
      ensures functionIds == old(functionIds)[key := Cell(None, r)]
      ensures published ==
        if outcome.Provisioned? || outcome.PublishFailed? then old(published)[Sanitize(key.entrypoint) := outcome.id]
        else old(published)
      ensures server ==
        if outcome.Provisioned? || (outcome.PublishFailed? && outcome.applied) then published.Values else old(server)
    {
      hide Exec, Sanitize;
      if outcome.ImageRejected? {
        GiveUp(i, key);
        return None;
      }
      Take(LockClient(i));
      Take(LockPublished(i));
      if outcome.CreateFailed? {
        GiveUp(i, key);
        return None;
      }
      published := published[Sanitize(key.entrypoint) := outcome.id];
      Take(Create(i, outcome.id));
      r := Publish(i, key, outcome);
    }

    method Publish(i: nat, key: Key, outcome: Outcome) returns (r: Option<Id>)
      requires outcome.Provisioned? || outcome.PublishFailed?
      requires Valid() && i < |model.tasks| && model.tasks[i] == Task(Resolve(key), Publishing(outcome.id), None)
      requires model.mapLock.None? && model.clientLock == model.publishedLock == Some(i)
      requires key in functionIds && functionIds[key] == Cell(Some(i), None)
      modifies this`functionIds, this`server, this`model, this`steps
      ensures Valid() && Quiet(model)
      ensures r == if outcome.Provisioned? then Some(outcome.id) else None
      ensures functionIds == old(functionIds)[key := Cell(None, r)]
      ensures server == if outcome.Provisioned? || outcome.applied then published.Values else old(server)
    {
      hide Exec, Sanitize;
      if outcome.Provisioned? || outcome.applied {
        server := published.Values;
      }
      if outcome.PublishFailed? {
        functionIds := functionIds[key := Cell(None, None)];
        Take(Stop(i, outcome.applied));
        return None;
      }
      functionIds := functionIds[key := Cell(None, Some(outcome.id))];
      Take(Step.Publish(i));
      return Some(outcome.id);
    }

    /**
     * `resolve_function` by a task nobody interrupts: a filled cell is read and nothing changes; an empty one is filled
     * by a full create and publish, and stays empty when any part of it fails. Every change is a step of the model.
     */
    method ResolveFunction(i: nat, entrypoint: string, outcome: Outcome) returns (r: Option<Id>, deadline: nat)
      requires Valid() && Quiet(model) && i < |model.tasks| && model.tasks[i] == Task(Invoke(app, entrypoint), AtMap, None)
      requires var key := Invoke(app, entrypoint).key; key in functionIds ==> functionIds[key].holder.None?
      modifies this`functionIds, this`published, this`server, this`model, this`steps
      ensures Valid() && Quiet(model)
      ensures var key := Invoke(app, entrypoint).key;
        if key in old(functionIds) && old(functionIds)[key].value.Some? then
          r == old(functionIds)[key].value && functionIds == old(functionIds) && published == old(published) && server == old(server)
        else
          && r == (if outcome.Provisioned? then Some(outcome.id) else None)
          && functionIds == old(functionIds)[key := Cell(None, r)]
          && (r.Some? ==> published == old(published)[Sanitize(entrypoint) := outcome.id] && server == published.Values)
      ensures var configured := if entrypoint in app.options then app.options[entrypoint].timeoutSecs else None;
        deadline == 120 + if configured.Some? then configured.value else app.timeoutSecs
    {
      hide Exec, Sanitize;
      var key := Invoke(app, entrypoint).key;
      deadline := Or(key.options.timeoutSecs, app.timeoutSecs) + DEADLINE_MARGIN;
      FetchCell(i, key);
      if functionIds[key].value.Some? {
        Take(TakeReady(i));
        return functionIds[key].value, deadline;
      }
      functionIds := functionIds[key := Cell(Some(i), None)];
      Take(TakePermit(i));
      r := EnsureFunction(i, key, outcome);
    }

    constructor (app: App, works: seq<Work>)
      ensures this.app == app && Valid() && model == Init(works) && functionIds == map[] && published == map[] && server == {}
    {
      this.app := app;
      functionIds, published, server := map[], map[], {};
      model, start, steps := Init(works), Init(works), [];
    }
  }
}
