/** What a cell of the run path stands for: the name and the effective settings, and so which calls share a function. */
module RunPathKeys {
  import opened Wrappers
  import opened RunPath

  /** A setting is the decorator's where it gives one, and the app's where it does not. */
  predicate Gives<T(==)>(setting: Option<T>, fallback: T, value: T) {
    setting == Some(value) || (setting.None? && value == fallback)
  }

  /** The key names the entrypoint, settles `cache` and `timeoutSecs`, and keeps all other options as configured. */
  predicate Settles(key: Key, name: string, o: FunctionOptions, app: App) {
    && key.entrypoint == name
    && key.options.cache.Some? && Gives(o.cache, app.cache, key.options.cache.value)
    && key.options.timeoutSecs.Some? && Gives(o.timeoutSecs, app.timeoutSecs, key.options.timeoutSecs.value)
    && key.options.memoryMb == o.memoryMb
    && key.options.rest == o.rest
  }

  /** The options a name is decorated with, if it is. */
  predicate Decorated(app: App, name: string, o: FunctionOptions) {
    if name in app.options then o == app.options[name] else o == FunctionOptions(None, None, None, "")
  }

  lemma InvokeMeans(app: App, name: string, o: FunctionOptions)
    requires Decorated(app, name, o)
    ensures Invoke(app, name).Resolve? && Settles(Invoke(app, name).key, name, o, app)
  {}

  /** A describe has a tag of its own, more memory, and otherwise the app's settings. */
  lemma DescribeMeans(app: App)
    ensures Describe(app).Resolve?
    ensures Settles(Describe(app).key, "__describe__", FunctionOptions(None, None, Some(4096), ""), app)
  {}

  /** Both sides settle on the same value. */
  ghost predicate Agree<T(!new)>(setting: Option<T>, fallback: T, setting': Option<T>, fallback': T) {
    exists value :: Gives(setting, fallback, value) && Gives(setting', fallback', value)
  }

  ghost predicate SameSettings(o: FunctionOptions, app: App, o': FunctionOptions, app': App) {
    && Agree(o.cache, app.cache, o'.cache, app'.cache)
    && Agree(o.timeoutSecs, app.timeoutSecs, o'.timeoutSecs, app'.timeoutSecs)
    && o.memoryMb == o'.memoryMb
    && o.rest == o'.rest
  }

  lemma SettledAlike(k: Key, name: string, o: FunctionOptions, app: App, k': Key, name': string, o': FunctionOptions, app': App)
    requires Settles(k, name, o, app) && Settles(k', name', o', app')
    ensures k == k' <==> name == name' && SameSettings(o, app, o', app')
  {
    if k == k' {
      assert Gives(o.cache, app.cache, k.options.cache.value) && Gives(o'.cache, app'.cache, k.options.cache.value);
      assert Gives(o.timeoutSecs, app.timeoutSecs, k.options.timeoutSecs.value);
      assert Gives(o'.timeoutSecs, app'.timeoutSecs, k.options.timeoutSecs.value);
    }
  }

  /** Two calls ask for one cell exactly when they name one entrypoint and their settings come out alike. */
  lemma InvokesShareIff(app: App, name: string, o: FunctionOptions, app': App, name': string, o': FunctionOptions)
    requires Decorated(app, name, o) && Decorated(app', name', o')
    ensures Invoke(app, name) == Invoke(app', name') <==> name == name' && SameSettings(o, app, o', app')
  {
    hide Decorated, Settles, SameSettings, Invoke;
    InvokeMeans(app, name, o);
    InvokeMeans(app', name', o');
    SettledAlike(Invoke(app, name).key, name, o, app, Invoke(app', name').key, name', o', app');
  }

  /** The reserved tag does not keep describes apart: an entrypoint of that name, decorated alike, has their cell. */
  lemma DescribeSharesIff(app: App, name: string, o: FunctionOptions)
    requires Decorated(app, name, o)
    ensures Invoke(app, name) == Describe(app) <==>
      && name == "__describe__"
      && o.memoryMb == Some(4096) && o.rest == ""
      && (o.cache.Some? ==> o.cache.value == app.cache)
      && (o.timeoutSecs.Some? ==> o.timeoutSecs.value == app.timeoutSecs)
  {
    InvokeMeans(app, name, o);
    DescribeMeans(app);
    var plain := FunctionOptions(None, None, Some(4096), "");
    SettledAlike(Invoke(app, name).key, name, o, app, Describe(app).key, "__describe__", plain, app);
    hide Decorated, Invoke, Describe;
    assert Gives(o.cache, app.cache, app.cache) <==> Agree(o.cache, app.cache, plain.cache, app.cache);
    assert Gives(o.timeoutSecs, app.timeoutSecs, app.timeoutSecs)
      <==> Agree(o.timeoutSecs, app.timeoutSecs, plain.timeoutSecs, app.timeoutSecs);
  }

  /** Both keys were filled, at one position of the history if they are one key and at two otherwise. */
  ghost predicate FilledTogether(filled: seq<Key>, k: Key, k': Key, together: bool) {
    exists n, m :: 0 <= n < |filled| && 0 <= m < |filled| && filled[n] == k && filled[m] == k' && (n == m <==> together)
  }

  /**
   * In every run, two invokes that got an id were served by one and the same create exactly when they named one
   * entrypoint and their settings come out alike: no function made under other settings is ever reused.
   */
  lemma OneCreatePerSetting(works: seq<Work>, steps: seq<Step>, i: nat, j: nat,
      app: App, name: string, o: FunctionOptions, app': App, name': string, o': FunctionOptions)
    requires Exec(Init(works), steps).Some?
    requires var tasks := Exec(Init(works), steps).value.tasks;
      && i < |tasks| && tasks[i].work == Invoke(app, name) && tasks[i].got.Some?
      && j < |tasks| && tasks[j].work == Invoke(app', name') && tasks[j].got.Some?
    requires Decorated(app, name, o) && Decorated(app', name', o')
    ensures FilledTogether(Exec(Init(works), steps).value.filled, Invoke(app, name).key, Invoke(app', name').key,
              name == name' && SameSettings(o, app, o', app'))
  {
    InvokesShareIff(app, name, o, app', name', o');
    InvokeMeans(app, name, o);
    InvokeMeans(app', name', o');
    RunKeepsInv(works, steps);
    hide Exec, Invoke, SameSettings, Decorated, LocksOk;
    var s := Exec(Init(works), steps).value;
    var k, k' := Invoke(app, name).key, Invoke(app', name').key;
    assert TaskOk(s, i, s.tasks[i]) && TaskOk(s, j, s.tasks[j]);
    assert k in s.filled && k' in s.filled;
    var n :| 0 <= n < |s.filled| && s.filled[n] == k;
    var m :| 0 <= m < |s.filled| && s.filled[m] == k';
  }
}
