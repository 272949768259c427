/** The describe commands themselves: a shared target directory they read and write, and the manifest comparison. */
module DescribeCommand {
  import opened Wrappers
  import opened ByteStrings
  import opened DescribeCache
  import opened DescribeCli

  // ---- comparing manifests ----

  datatype Diff = AbsentThere(name: string) | Differs(name: string, here: string, there: string) | AbsentHere(name: string)

  function Report(l: map<string, string>, r: map<string, string>, name: string): Option<Diff> {
    if name in l then
      if name !in r then Some(AbsentThere(name))
      else if r[name] != l[name] then Some(Differs(name, l[name], r[name]))
      else None
    else if name in r then Some(AbsentHere(name))
    else None
  }

  /** Exactly the reports about names in `seen`, once each. */
  ghost predicate Reports(diffs: seq<Diff>, l: map<string, string>, r: map<string, string>, seen: set<string>) {
    && (forall i :: 0 <= i < |diffs| ==> diffs[i].name in seen && Report(l, r, diffs[i].name) == Some(diffs[i]))
    && (forall n :: n in seen && Report(l, r, n).Some? ==> Report(l, r, n).value in diffs)
    && (forall i, j :: 0 <= i < j < |diffs| ==> diffs[i].name != diffs[j].name)
  }

  lemma ReportsOneMore(diffs: seq<Diff>, l: map<string, string>, r: map<string, string>, seen: set<string>, n: string)
    requires Reports(diffs, l, r, seen) && n !in seen
    ensures var d := Report(l, r, n); Reports(if d.Some? then diffs + [d.value] else diffs, l, r, seen + {n})
  {
    var d := Report(l, r, n);
    if d.Some? {
      assert d.value.name == n;
      assert (diffs + [d.value])[|diffs|] == d.value;
      assert forall x :: x in diffs ==> x in diffs + [d.value];
    }
  }

  lemma NoReportsIff(diffs: seq<Diff>, l: map<string, string>, r: map<string, string>)
    requires Reports(diffs, l, r, l.Keys + r.Keys)
    ensures diffs == [] <==> l == r
  {
    assert diffs != [] ==> Report(l, r, diffs[0].name).Some?;
    if diffs == [] {
      forall n ensures n in l <==> n in r {
        assert Report(l, r, n).None?;
      }
      forall n | n in l ensures l[n] == r[n] {
        assert Report(l, r, n).None?;
      }
    }
  }

  method IndexOf(entries: seq<ManifestEntry>) returns (m: map<string, string>)
    ensures m == Index(entries)
  {
    m := map[];
    for i := 0 to |entries|
      invariant m == Index(entries[..i])
    {
      assert entries[..i + 1][..i] == entries[..i];
      m := m[entries[i].name := entries[i].config];
    }
    assert entries[..|entries|] == entries;
  }

  /** The first loop: what is known here. */
  method DiffKnown(l: map<string, string>, r: map<string, string>) returns (diffs: seq<Diff>)
    ensures Reports(diffs, l, r, l.Keys)
  {
    hide Reports;
    diffs := [];
    NothingReported(l, r);
    var names := l.Keys;
    ghost var seen: set<string> := {};
    while names != {}
      invariant seen + names == l.Keys && seen !! names && Reports(diffs, l, r, seen)
      decreases |names|
    {
      var name :| name in names;
      ReportsOneMore(diffs, l, r, seen, name);
      if name !in r {
        diffs := diffs + [AbsentThere(name)];
      } else if r[name] != l[name] {
        diffs := diffs + [Differs(name, l[name], r[name])];
      }
      names, seen := names - {name}, seen + {name};
    }
    assert seen == l.Keys;
  }

  lemma OneNameLess(l: set<string>, r: set<string>, names: set<string>, name: string)
    requires name in names && names <= r
    ensures l + (r - (names - {name})) == (l + (r - names)) + {name}
    ensures name in l ==> l + (r - (names - {name})) == l + (r - names)
    ensures name !in l ==> name !in l + (r - names)
  {}

  lemma AllNames(l: set<string>, r: set<string>)
    ensures l + (r - r) == l && l + (r - {}) == l + r
  {}

  /** The second loop: what is known only there. */
  method DiffUnknown(l: map<string, string>, r: map<string, string>, known: seq<Diff>) returns (diffs: seq<Diff>)
    requires Reports(known, l, r, l.Keys)
    ensures Reports(diffs, l, r, l.Keys + r.Keys)
  {
    hide Reports;
    diffs := known;
    var names := r.Keys;
    AllNames(l.Keys, r.Keys);
    while names != {}
      invariant names <= r.Keys && Reports(diffs, l, r, l.Keys + (r.Keys - names))
      decreases |names|
    {
      var name :| name in names;
      OneNameLess(l.Keys, r.Keys, names, name);
      if name !in l {
        ReportsOneMore(diffs, l, r, l.Keys + (r.Keys - names), name);
        diffs := diffs + [AbsentHere(name)];
      }
      names := names - {name};
    }
  }

  /** `diff_manifests`: every differing name is reported once, and nothing is reported exactly when the indexes agree. */
  method DiffManifests(local: Manifest, remote: Manifest) returns (diffs: seq<Diff>)
    ensures var l, r := Index(local.entrypoints), Index(remote.entrypoints);
      Reports(diffs, l, r, l.Keys + r.Keys) && (diffs == [] <==> l == r)
  {
    var l := IndexOf(local.entrypoints);
    var r := IndexOf(remote.entrypoints);
    hide Reports, Index;
    diffs := DiffKnown(l, r);
    diffs := DiffUnknown(l, r, diffs);
    NoReportsIff(diffs, l, r);
  }

  lemma NothingReported(l: map<string, string>, r: map<string, string>)
    ensures Reports([], l, r, {})
  {}

  // ---- the commands ----

  class Workbench {
    const tools: Tools
    var cache: map<string, Bytes>
    var pins: map<Bytes, Runner>

    function OnDisk(): Disk
      reads this
    {
      Disk(cache, pins)
    }

    constructor (tools: Tools)
      ensures this.tools == tools && OnDisk() == CLEAN
    {
      this.tools := tools;
      cache, pins := map[], map[];
    }

    /** `load` and the parse that follows it: bytes that no longer decode are a miss. */
    method Load(key: Option<string>) returns (m: Option<Manifest>)
      ensures m == if key.Some? && key.value in cache then tools.decode(cache[key.value]) else None
    {
      if key.None? || key.value !in cache {
        return None;
      }
      return tools.decode(cache[key.value]);
    }

    method Store(key: Option<string>, bytes: Bytes, io: Io)
      modifies this`cache
      ensures cache ==
        if key.None? || io.write.Untouched? then old(cache)
        else old(cache)[key.value := if io.write.Whole? then bytes else io.write.left]
    {
      if key.None? || io.write.Untouched? {
        return;
      }
      cache := cache[key.value := if io.write.Torn? then io.write.left else bytes];
    }

    /** `scope_runner_artifact`: the path returned holds this very artifact, whatever a failed link or copy leaves behind. */
    method ScopeRunnerArtifact(p: Bytes, artifact: Runner, io: Io) returns (runner: Runner)
      modifies this`pins
      ensures pins == Pinned(old(OnDisk()), p, artifact, io).pins && runner == artifact
    {
      pins := pins - {p};
      match io.pinning
      case Linked =>
        pins := pins[p := artifact];
        assert pins == old(pins)[p := artifact];
        return pins[p];
      case Unlinked(left) =>
        if left.Some? {
          pins := pins[p := left.value];
          assert pins == old(pins)[p := left.value];
        }
        return artifact;
    }

    /** `build_and_describe`. */
    method BuildAndDescribe(w: Workspace, p: Bytes, io: Io) returns (o: Outcome)
      modifies this
      ensures (OnDisk(), o) == LocalDescribe(tools, old(OnDisk()), w, p, io)
    {
      hide CacheKey;
      var target := tools.target(w, p);
      if target.Some? && !target.value.runnable {
        return Failed(Unrunnable);
      }
      var key := Key(w, p, target.Some? && target.value.generatable, tools.digest);
      var cached := Load(key);
      if cached.Some? {
        if cached.value.entrypoints == [] {
          return Failed(NoEntrypoints);
        }
        return Described(cached.value, if p in pins then Some(pins[p]) else None);
      }
      var built := tools.local(w, p);
      if built.BuildFailed? {
        return Failed(CargoFailed);
      }
      var runner := ScopeRunnerArtifact(p, built.artifact, io);
      if built.stdout.None? {
        return Failed(DescribeFailed);
      }
      var manifest := tools.decode(built.stdout.value);
      if manifest.None? {
        return Failed(BadManifest);
      }
      if manifest.value.entrypoints == [] {
        return Failed(NoEntrypoints);
      }
      Store(key, built.stdout.value, io);
      return Described(manifest.value, Some(runner));
    }

    /** `remote_describe_outcome`. */
    method RemoteDescribeOutcome(w: Workspace, p: Bytes, io: Io) returns (o: Outcome)
      modifies this`cache
      ensures (OnDisk(), o) == RemoteDescribe(tools, old(OnDisk()), w, p, io)
    {
      hide CacheKey;
      var target := tools.target(w, p);
      var key := Key(w, p, target.Some? && target.value.generatable, tools.digest);
      var cached := Load(key);
      if cached.Some? {
        if cached.value.entrypoints == [] {
          return Failed(NoEntrypoints);
        }
        return Described(cached.value, None);
      }
      var answer := tools.remote(w, p);
      if !io.online || answer.None? {
        return Failed(RemoteFailed);
      }
      var manifest := tools.decode(answer.value);
      if manifest.None? {
        return Failed(BadManifest);
      }
      if manifest.value.entrypoints == [] {
        return Failed(NoEntrypoints);
      }
      Store(key, answer.value, io);
      return Described(manifest.value, None);
    }

    /** `verify_manifest_outcome`. */
    method VerifyManifestOutcome(w: Workspace, p: Bytes, io: Io, io': Io) returns (o: Outcome)
      modifies this
      ensures (OnDisk(), o) == VerifyManifest(tools, old(OnDisk()), w, p, io, io')
    {
      hide LocalDescribe, RemoteDescribe, Index, Reports;
      var local := BuildAndDescribe(w, p, io);
      if local.Failed? {
        return local;
      }
      var remote := RemoteDescribeOutcome(w, p, io');
      if remote.Failed? {
        return remote;
      }
      var diffs := DiffManifests(local.manifest, remote.manifest);
      if diffs != [] {
        return Failed(Diverged);
      }
      return local;
    }
  }
}
