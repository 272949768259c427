/**
 * Describing a package through the manifest cache, locally, on Modal, or both. The functions give one command's answer
 * and the disk it leaves; the lemmas are about any sequence of commands, edits, cleans and damaged files.
 */
module DescribeCli {
  import opened Wrappers
  import opened ByteStrings
  import opened KeyFraming
  import opened SourceTree
  import opened SourceEdits
  import opened DescribeCache

  datatype ManifestEntry = ManifestEntry(name: string, config: string)

  datatype Manifest = Manifest(entrypoints: seq<ManifestEntry>)

  /** A built runner, by its contents. */
  type Runner = Bytes

  datatype Target = Target(runnable: bool, generatable: bool)

  datatype Built = BuildFailed | Ran(artifact: Runner, stdout: Option<Bytes>)

  /**
   * The world outside: the digest, cargo metadata's view of a package, building and running `--describe` here or on
   * Modal, and `parse_and_check`.
   */
  datatype Tools = Tools(
    digest: Bytes -> Bytes,
    target: (Workspace, Bytes) -> Option<Target>,
    local: (Workspace, Bytes) -> Built,
    remote: (Workspace, Bytes) -> Option<Bytes>,
    decode: Bytes -> Option<Manifest>)

  /** How a cache write ends: complete, without touching the file, or leaving other bytes in it. */
  datatype Write = Whole | Untouched | Torn(left: Bytes)

  /** How pinning a runner ends: linked or copied, or with whatever the failed attempt leaves at the pin's path. */
  datatype Pinning = Linked | Unlinked(left: Option<Runner>)

  /** What may fail without failing the command, and whether Modal can be reached. */
  datatype Io = Io(write: Write, pinning: Pinning, online: bool)

  datatype Failure = Unrunnable | CargoFailed | DescribeFailed | BadManifest | NoEntrypoints | RemoteFailed | Diverged

  datatype Outcome = Described(manifest: Manifest, runner: Option<Runner>) | Failed(failure: Failure)

  /** `.modal-rust` under the shared target directory: manifests by key, and one pinned runner per package. */
  datatype Disk = Disk(cache: map<string, Bytes>, pins: map<Bytes, Runner>)

  const CLEAN := Disk(map[], map[])

  function Generatable(t: Tools, w: Workspace, p: Bytes): bool {
    t.target(w, p).Some? && t.target(w, p).value.generatable
  }

  function KeyFor(t: Tools, w: Workspace, p: Bytes): Option<string> {
    CacheKey(w, p, Generatable(t, w, p), t.digest)
  }

  /** A hit: a key, a file under it, and bytes that still decode. */
  function Loaded(t: Tools, d: Disk, w: Workspace, p: Bytes): Option<Manifest> {
    var key := KeyFor(t, w, p);
    if key.Some? && key.value in d.cache then t.decode(d.cache[key.value]) else None
  }

  function Stored(t: Tools, d: Disk, w: Workspace, p: Bytes, bytes: Bytes, io: Io): Disk {
    var key := KeyFor(t, w, p);
    if key.None? || io.write.Untouched? then d
    else d.(cache := d.cache[key.value := if io.write.Whole? then bytes else io.write.left])
  }

  function Pinned(d: Disk, p: Bytes, artifact: Runner, io: Io): Disk {
    match io.pinning
    case Linked => d.(pins := d.pins[p := artifact])
    case Unlinked(Some(left)) => d.(pins := d.pins[p := left])
    case Unlinked(None) => d.(pins := d.pins - {p})
  }

  function Checked(m: Manifest, runner: Option<Runner>): Outcome {
    if m.entrypoints == [] then Failed(NoEntrypoints) else Described(m, runner)
  }

  function LocalDescribe(t: Tools, d: Disk, w: Workspace, p: Bytes, io: Io): (Disk, Outcome) {
    if t.target(w, p).Some? && !t.target(w, p).value.runnable then (d, Failed(Unrunnable))
    else if Loaded(t, d, w, p).Some? then
      (d, Checked(Loaded(t, d, w, p).value, if p in d.pins then Some(d.pins[p]) else None))
    else
      match t.local(w, p)
      case BuildFailed => (d, Failed(CargoFailed))
      case Ran(artifact, stdout) =>
        var pinned := Pinned(d, p, artifact, io);
        if stdout.None? then (pinned, Failed(DescribeFailed))
        else if t.decode(stdout.value).None? then (pinned, Failed(BadManifest))
        else
          var o := Checked(t.decode(stdout.value).value, Some(artifact));
          (if o.Described? then Stored(t, pinned, w, p, stdout.value, io) else pinned, o)
  }

  function RemoteDescribe(t: Tools, d: Disk, w: Workspace, p: Bytes, io: Io): (Disk, Outcome) {
    if Loaded(t, d, w, p).Some? then (d, Checked(Loaded(t, d, w, p).value, None))
    else if !io.online || t.remote(w, p).None? then (d, Failed(RemoteFailed))
    else
      var bytes := t.remote(w, p).value;
      if t.decode(bytes).None? then (d, Failed(BadManifest))
      else
        var o := Checked(t.decode(bytes).value, None);
        (if o.Described? then Stored(t, d, w, p, bytes, io) else d, o)
  }

  /** The last entry of a name wins, as in collecting into a map. */
  function Index(entries: seq<ManifestEntry>): map<string, string> {
    if entries == [] then map[]
    else
      var last := entries[|entries| - 1];
      Index(entries[..|entries| - 1])[last.name := last.config]
  }

  /** The local leg first, then the remote leg on the disk it left, then the comparison. */
  function VerifyManifest(t: Tools, d: Disk, w: Workspace, p: Bytes, io: Io, io': Io): (Disk, Outcome) {
    var (d1, local) := LocalDescribe(t, d, w, p, io);
    if local.Failed? then (d1, local)
    else
      var (d2, remote) := RemoteDescribe(t, d1, w, p, io');
      if remote.Failed? then (d2, remote)
      else if Index(local.manifest.entrypoints) == Index(remote.manifest.entrypoints) then (d2, local)
      else (d2, Failed(Diverged))
  }

  /** The index has each name that occurs, with the config of its last occurrence. */
  lemma {:induction false} IndexMeans(entries: seq<ManifestEntry>, name: string)
    ensures name in Index(entries) <==> exists i :: 0 <= i < |entries| && entries[i].name == name
    ensures forall i ::
      0 <= i < |entries| && entries[i].name == name && (forall j :: i < j < |entries| ==> entries[j].name != name) ==>
        name in Index(entries) && Index(entries)[name] == entries[i].config
  {
    if entries != [] {
      var init := entries[..|entries| - 1];
      IndexMeans(init, name);
      assert forall i :: 0 <= i < |init| ==> init[i] == entries[i];
    }
  }

  /** A local describe that finds nothing cached, told by what the tools do; nothing is stored unless it succeeds. */
  lemma LocalMeans(t: Tools, d: Disk, w: Workspace, p: Bytes, io: Io)
    requires Loaded(t, d, w, p).None?
    ensures var (d', o) := LocalDescribe(t, d, w, p, io);
      && (o.Failed? ==> d'.cache == d.cache)
      && if t.target(w, p).Some? && !t.target(w, p).value.runnable then o == Failed(Unrunnable) && d' == d
         else
           match t.local(w, p)
           case BuildFailed => o == Failed(CargoFailed) && d' == d
           case Ran(_, None) => o == Failed(DescribeFailed)
           case Ran(artifact, Some(stdout)) =>
             match t.decode(stdout)
             case None => o == Failed(BadManifest)
             case Some(m) => o == if m == Manifest([]) then Failed(NoEntrypoints) else Described(m, Some(artifact))
  {}

  /** The same on Modal: no runner comes back, and nothing is pinned. */
  lemma RemoteMeans(t: Tools, d: Disk, w: Workspace, p: Bytes, io: Io)
    requires Loaded(t, d, w, p).None?
    ensures var (d', o) := RemoteDescribe(t, d, w, p, io);
      && d'.pins == d.pins && (o.Failed? ==> d' == d)
      && match t.remote(w, p)
         case None => o == Failed(RemoteFailed)
         case Some(bytes) =>
           if !io.online then o == Failed(RemoteFailed)
           else
             match t.decode(bytes)
             case None => o == Failed(BadManifest)
             case Some(m) => o == if m == Manifest([]) then Failed(NoEntrypoints) else Described(m, None)
  {}

  /** A hit answers from the file alone and changes nothing; only an unrunnable package is refused ahead of it. */
  lemma HitMeans(t: Tools, d: Disk, w: Workspace, p: Bytes, io: Io)
    requires Loaded(t, d, w, p).Some? && Loaded(t, d, w, p).value.entrypoints != []
    ensures RemoteDescribe(t, d, w, p, io) == (d, Described(Loaded(t, d, w, p).value, None))
    ensures LocalDescribe(t, d, w, p, io) ==
      if t.target(w, p).Some? && !t.target(w, p).value.runnable then (d, Failed(Unrunnable))
      else (d, Described(Loaded(t, d, w, p).value, if p in d.pins then Some(d.pins[p]) else None))
  {}

  /** What a successful describe writes is what the next one finds. */
  lemma StoredIsHit(t: Tools, d: Disk, w: Workspace, p: Bytes, io: Io)
    requires Loaded(t, d, w, p).None? && KeyFor(t, w, p).Some? && io.write.Whole?
    ensures var (d', o) := LocalDescribe(t, d, w, p, io); o.Described? ==> Loaded(t, d', w, p) == Some(o.manifest)
    ensures var (d', o) := RemoteDescribe(t, d, w, p, io); o.Described? ==> Loaded(t, d', w, p) == Some(o.manifest)
  {
    hide KeyFor;
  }

  // ---- runs ----

  /** Edits happen between events: each names the workspace it sees. */
  datatype Event =
    | Local(w: Workspace, p: Bytes, io: Io)
    | Remote(w: Workspace, p: Bytes, io: Io)
    | Verify(w: Workspace, p: Bytes, io: Io, io': Io)
    | Clean
    | Damage(name: string, bytes: Bytes)

  function After(t: Tools, d: Disk, e: Event): Disk {
    match e
    case Local(w, p, io) => LocalDescribe(t, d, w, p, io).0
    case Remote(w, p, io) => RemoteDescribe(t, d, w, p, io).0
    case Verify(w, p, io, io') => VerifyManifest(t, d, w, p, io, io').0
    case Clean => CLEAN
    case Damage(name, bytes) => d.(cache := d.cache[name := bytes])
  }

  function Run(t: Tools, d: Disk, events: seq<Event>): Disk {
    if events == [] then d else After(t, Run(t, d, events[..|events| - 1]), events[|events| - 1])
  }

  // ---- coherence ----

  /** What building and describing the current source gives. */
  function ManifestAt(t: Tools, w: Workspace, p: Bytes): Option<Manifest> {
    match t.local(w, p)
    case Ran(_, Some(stdout)) => t.decode(stdout)
    case _ => None
  }

  /** What Modal describes the current source as, when it builds there. */
  function FarManifest(t: Tools, w: Workspace, p: Bytes): Option<Manifest> {
    if t.remote(w, p).Some? then t.decode(t.remote(w, p).value) else None
  }

  /** The current source's manifest: as described here, else as described on Modal. */
  function TrueManifest(t: Tools, w: Workspace, p: Bytes): Option<Manifest> {
    if ManifestAt(t, w, p).Some? then ManifestAt(t, w, p) else FarManifest(t, w, p)
  }

  /** Which workspaces and packages a result is about. */
  type Scope = (Workspace, Bytes) -> bool

  predicate Anywhere(w: Workspace, p: Bytes) { true }

  predicate Inside(w: Workspace, p: Bytes) { w.closure.Some? ==> InWorkspace(w.closure.value) }

  /** A workspace of the scope that a file system can hold. */
  ghost predicate In(scope: Scope, w: Workspace, p: Bytes) {
    scope(w, p) && WellFormed(w) && Fits(w, p)
  }

  ghost predicate Ordinary(w: Workspace, p: Bytes) { In(Inside, w, p) }

  ghost predicate CollisionFree(digest: Bytes -> Bytes) {
    forall a, b :: digest(a) == digest(b) ==> a == b
  }

  /** The assumption about Modal: a source described both here and there is described alike. It may build on one side only. */
  ghost predicate DescribesAlike(t: Tools) {
    forall w, p :: ManifestAt(t, w, p).Some? && FarManifest(t, w, p).Some? ==> ManifestAt(t, w, p) == FarManifest(t, w, p)
  }

  /** Package, flag and lock file agree, and every source, by where it is. */
  ghost predicate SameByPlace(t: Tools, w: Workspace, p: Bytes, w': Workspace, p': Bytes) {
    && KeyFor(t, w, p).Some? && KeyFor(t, w', p').Some?
    && p == p' && Generatable(t, w, p) == Generatable(t, w', p') && w.lockfile == w'.lockfile && SameSources(w, w')
  }

  /** Package, flag and lock file agree, and what the closure holds under each key path, in order. */
  ghost predicate SameHashed(t: Tools, w: Workspace, p: Bytes, w': Workspace, p': Bytes) {
    && KeyFor(t, w, p).Some? && KeyFor(t, w', p').Some?
    && p == p' && Generatable(t, w, p) == Generatable(t, w', p') && w.lockfile == w'.lockfile && SameSightings(w, w')
  }

  /** The assumption about builds: what they describe depends on package, flag, lock file and closure sources only. */
  ghost predicate ReadsOnlySources(t: Tools, scope: Scope) {
    forall w, p, w', p' :: In(scope, w, p) && In(scope, w', p') && SameByPlace(t, w, p, w', p') ==>
      ManifestAt(t, w, p) == ManifestAt(t, w', p') && FarManifest(t, w, p) == FarManifest(t, w', p')
  }

  ghost predicate Assumed(t: Tools) {
    CollisionFree(t.digest) && ReadsOnlySources(t, Inside) && DescribesAlike(t)
  }

  predicate Runnable(t: Tools, w: Workspace, p: Bytes) {
    t.target(w, p).Some? ==> t.target(w, p).value.runnable
  }

  /** A describe of this source, here or on Modal, succeeds and is worth storing. */
  predicate Describable(t: Tools, w: Workspace, p: Bytes) {
    && TrueManifest(t, w, p).Some? && TrueManifest(t, w, p).value.entrypoints != []
    && ((Runnable(t, w, p) && ManifestAt(t, w, p).Some?) || FarManifest(t, w, p).Some?)
  }

  /** What is hashed decides the manifest: nothing else may influence that of a source that can be described. */
  ghost predicate HashDecides(t: Tools, scope: Scope) {
    forall w, p, w', p' ::
      In(scope, w, p) && In(scope, w', p') && SameHashed(t, w, p, w', p') && Describable(t, w, p) ==>
        TrueManifest(t, w', p') == TrueManifest(t, w, p)
  }

  /** Every cache file that decodes is right for every workspace that would find it. */
  ghost predicate Sound(t: Tools, scope: Scope, d: Disk) {
    forall w, p :: In(scope, w, p) ==> SoundFor(t, d, w, p)
  }

  ghost predicate SoundFor(t: Tools, d: Disk, w: Workspace, p: Bytes) {
    Loaded(t, d, w, p).Some? ==> TrueManifest(t, w, p) == Loaded(t, d, w, p)
  }

  /** A torn write leaves nothing that decodes, and no more does damage. */
  predicate TearsBadly(t: Tools, io: Io) { io.write.Torn? ==> t.decode(io.write.left).None? }

  ghost predicate Allowed(t: Tools, scope: Scope, e: Event) {
    match e
    case Local(w, p, io) => In(scope, w, p) && TearsBadly(t, io)
    case Remote(w, p, io) => In(scope, w, p) && TearsBadly(t, io)
    case Verify(w, p, io, io') => In(scope, w, p) && TearsBadly(t, io) && TearsBadly(t, io')
    case Clean => true
    case Damage(_, bytes) => t.decode(bytes).None?
  }

  ghost predicate AllAllowed(t: Tools, scope: Scope, events: seq<Event>) {
    forall i :: 0 <= i < |events| ==> Allowed(t, scope, events[i])
  }

  /** Two cache file names are one exactly when what is hashed is the same. */
  lemma SameKeyIff(t: Tools, w: Workspace, p: Bytes, w': Workspace, p': Bytes)
    requires CollisionFree(t.digest) && In(Anywhere, w, p) && In(Anywhere, w', p')
    requires KeyFor(t, w, p).Some? && KeyFor(t, w', p').Some?
    ensures KeyFor(t, w, p) == KeyFor(t, w', p') <==> SameHashed(t, w, p, w', p')
  {
    hide KeyPreimage, Fits, WellFormed, SameSightings;
    var g, g' := Generatable(t, w, p), Generatable(t, w', p');
    ClosureKnown(w, p, g);
    ClosureKnown(w', p', g');
    KeyIsExactAnywhere(w, p, g, w', p', g');
    var x, y := KeyPreimage(w, p, g).value, KeyPreimage(w', p', g').value;
    if HexOf(t.digest(x)) == HexOf(t.digest(y)) {
      HexIsInjective(t.digest(x), t.digest(y));
    }
  }

  /** The target sets the flag. */
  predicate SetsFlag(target: Option<Target>) { target.Some? && target.value.generatable }

  /** The same workspace gets another cache file name exactly when cargo's view of the target sets the flag differently. */
  lemma FlagChangesKey(t: Tools, t': Tools, w: Workspace, p: Bytes)
    requires CollisionFree(t.digest) && t'.digest == t.digest && In(Anywhere, w, p) && KeyFor(t, w, p).Some?
    ensures KeyFor(t', w, p).Some?
    ensures KeyFor(t', w, p) == KeyFor(t, w, p) <==> (SetsFlag(t.target(w, p)) <==> SetsFlag(t'.target(w, p)))
  {
    hide Fits, WellFormed, SortByPath, Keyed, Collect;
    assert KeyPreimage(w, p, Generatable(t', w, p)).Some?;
    hide KeyPreimage;
    var g, g' := Generatable(t, w, p), Generatable(t', w, p);
    ClosureKnown(w, p, g);
    KeyIsExactAnywhere(w, p, g, w, p, g');
    hide SameSightings;
    var x, y := KeyPreimage(w, p, g).value, KeyPreimage(w, p, g').value;
    assert SameSightings(w, w) by { SightsItself(w); }
    if HexOf(t.digest(x)) == HexOf(t.digest(y)) {
      HexIsInjective(t.digest(x), t.digest(y));
    }
  }

  lemma SightsItself(w: Workspace)
    requires w.closure.Some?
    ensures SameSightings(w, w)
  {}

  lemma ClosureKnown(w: Workspace, p: Bytes, g: bool)
    requires KeyPreimage(w, p, g).Some?
    ensures w.closure.Some?
  {}

  /** One cache file name stands for one set of sources, hence one manifest. */
  lemma KeyDecidesManifest(t: Tools, w: Workspace, p: Bytes, w': Workspace, p': Bytes)
    requires CollisionFree(t.digest) && ReadsOnlySources(t, Inside) && Ordinary(w, p) && Ordinary(w', p')
    requires KeyFor(t, w, p).Some? && KeyFor(t, w, p) == KeyFor(t, w', p')
    ensures ManifestAt(t, w, p) == ManifestAt(t, w', p') && FarManifest(t, w, p) == FarManifest(t, w', p')
    ensures TrueManifest(t, w, p) == TrueManifest(t, w', p')
  {
    hide KeyFor, ManifestAt, FarManifest, Fits, WellFormed, SameSources, SameSightings;
    SameKeyIff(t, w, p, w', p');
    InsideSightings(t, w, p, w', p');
    assert SameByPlace(t, w, p, w', p');
  }

  /** Inside the workspace, what is hashed is the same exactly when the sources are, place by place. */
  lemma InsideSightings(t: Tools, w: Workspace, p: Bytes, w': Workspace, p': Bytes)
    requires Ordinary(w, p) && Ordinary(w', p') && KeyFor(t, w, p).Some? && KeyFor(t, w', p').Some?
    ensures SameHashed(t, w, p, w', p') <==> SameByPlace(t, w, p, w', p')
  {
    hide Fits, SameSources, SameSightings, SortByPath, Collect, Keyed;
    EntriesAreExact(w, w');
    EntriesAnywhere(w, w');
  }

  /** Storing what the current source describes keeps the cache right for everyone, however the write ends. */
  lemma StoringKeepsSound(t: Tools, scope: Scope, d: Disk, w: Workspace, p: Bytes, bytes: Bytes, io: Io)
    requires CollisionFree(t.digest) && HashDecides(t, scope) && Sound(t, scope, d) && In(scope, w, p)
    requires Describable(t, w, p) && t.decode(bytes) == TrueManifest(t, w, p) && TearsBadly(t, io)
    ensures Sound(t, scope, Stored(t, d, w, p, bytes, io))
  {
    hide KeyFor, TrueManifest, Describable, CollisionFree, Fits, WellFormed, SameHashed;
    var d' := Stored(t, d, w, p, bytes, io);
    forall w', p' | In(scope, w', p') ensures SoundFor(t, d', w', p') {
      assert SoundFor(t, d, w', p');
      if KeyFor(t, w', p').Some? && KeyFor(t, w', p') == KeyFor(t, w, p) {
        SameKeyIff(t, w, p, w', p');
      }
    }
  }

  lemma PinsDoNotMatter(t: Tools, scope: Scope, d: Disk, pins: map<Bytes, Runner>)
    requires Sound(t, scope, d)
    ensures Sound(t, scope, d.(pins := pins))
  {
    hide KeyFor, TrueManifest, In;
    forall w, p | In(scope, w, p) ensures SoundFor(t, d.(pins := pins), w, p) {
      assert SoundFor(t, d, w, p);
    }
  }

  lemma LocalKeepsSound(t: Tools, scope: Scope, d: Disk, w: Workspace, p: Bytes, io: Io)
    requires CollisionFree(t.digest) && HashDecides(t, scope) && Sound(t, scope, d) && In(scope, w, p) && TearsBadly(t, io)
    ensures Sound(t, scope, LocalDescribe(t, d, w, p, io).0)
  {
    hide Stored, Sound, In, Loaded, HashDecides, CollisionFree, TearsBadly;
    match t.local(w, p)
    case BuildFailed =>
    case Ran(artifact, stdout) =>
      var pinned := Pinned(d, p, artifact, io);
      PinsDoNotMatter(t, scope, d, pinned.pins);
      assert pinned == d.(pins := pinned.pins);
      if stdout.Some? && t.decode(stdout.value).Some? && t.decode(stdout.value).value.entrypoints != [] && Runnable(t, w, p) {
        StoringKeepsSound(t, scope, pinned, w, p, stdout.value, io);
      }
  }

  lemma RemoteKeepsSound(t: Tools, scope: Scope, d: Disk, w: Workspace, p: Bytes, io: Io)
    requires CollisionFree(t.digest) && DescribesAlike(t) && HashDecides(t, scope)
    requires Sound(t, scope, d) && In(scope, w, p) && TearsBadly(t, io)
    ensures Sound(t, scope, RemoteDescribe(t, d, w, p, io).0)
  {
    FarIsTrue(t, w, p);
    hide Stored, Sound, In, Loaded, TrueManifest, HashDecides, CollisionFree, DescribesAlike, TearsBadly, Runnable;
    if FarManifest(t, w, p).Some? && FarManifest(t, w, p).value.entrypoints != [] {
      StoringKeepsSound(t, scope, d, w, p, t.remote(w, p).value, io);
    }
  }

  lemma FarIsTrue(t: Tools, w: Workspace, p: Bytes)
    requires DescribesAlike(t)
    ensures FarManifest(t, w, p).Some? ==> TrueManifest(t, w, p) == FarManifest(t, w, p)
  {
    hide ManifestAt, FarManifest;
  }

  lemma DamageKeepsSound(t: Tools, scope: Scope, d: Disk, name: string, bytes: Bytes)
    requires Sound(t, scope, d) && t.decode(bytes).None?
    ensures Sound(t, scope, d.(cache := d.cache[name := bytes]))
  {
    hide KeyFor, TrueManifest, In;
    forall w, p | In(scope, w, p) ensures SoundFor(t, d.(cache := d.cache[name := bytes]), w, p) {
      assert SoundFor(t, d, w, p);
    }
  }

  lemma EventKeepsSound(t: Tools, scope: Scope, d: Disk, e: Event)
    requires CollisionFree(t.digest) && DescribesAlike(t) && HashDecides(t, scope) && Sound(t, scope, d) && Allowed(t, scope, e)
    ensures Sound(t, scope, After(t, d, e))
  {
    hide LocalDescribe, RemoteDescribe, In, HashDecides, CollisionFree, DescribesAlike, TearsBadly;
    match e
    case Local(w, p, io) => LocalKeepsSound(t, scope, d, w, p, io);
    case Remote(w, p, io) => RemoteKeepsSound(t, scope, d, w, p, io);
    case Verify(w, p, io, io') =>
      LocalKeepsSound(t, scope, d, w, p, io);
      RemoteKeepsSound(t, scope, LocalDescribe(t, d, w, p, io).0, w, p, io');
    case Clean =>
    case Damage(name, bytes) => DamageKeepsSound(t, scope, d, name, bytes);
  }

  lemma {:induction false} RunKeepsSound(t: Tools, scope: Scope, d: Disk, events: seq<Event>)
    requires CollisionFree(t.digest) && DescribesAlike(t) && HashDecides(t, scope) && Sound(t, scope, d) && AllAllowed(t, scope, events)
    ensures Sound(t, scope, Run(t, d, events))
  {
    hide CollisionFree, DescribesAlike, HashDecides, Sound, Allowed, After;
    if events != [] {
      var init := events[..|events| - 1];
      RunKeepsSound(t, scope, d, init);
      EventKeepsSound(t, scope, Run(t, d, init), events[|events| - 1]);
    }
  }

  lemma CleanIsSound(t: Tools, scope: Scope)
    ensures Sound(t, scope, CLEAN)
  {}

  /** Two outcomes tell the user the same, whichever runner binary they carry. */
  predicate SameAnswer(a: Outcome, b: Outcome) {
    match a
    case Failed(f) => b == Failed(f)
    case Described(m, _) => b.Described? && b.manifest == m
  }

  lemma SoundAnswers(t: Tools, d: Disk, w: Workspace, p: Bytes, io: Io)
    requires SoundFor(t, d, w, p)
    ensures var o := LocalDescribe(t, d, w, p, io).1;
      && (o.Described? ==> TrueManifest(t, w, p) == Some(o.manifest))
      && (SameAnswer(o, LocalDescribe(t, CLEAN, w, p, io).1) <==>
            !Runnable(t, w, p) || Loaded(t, d, w, p).None? || ManifestAt(t, w, p).Some?)
  {
    hide KeyFor, Stored;
  }

  lemma SoundFarAnswers(t: Tools, d: Disk, w: Workspace, p: Bytes, io: Io)
    requires DescribesAlike(t) && SoundFor(t, d, w, p)
    ensures var o := RemoteDescribe(t, d, w, p, io).1;
      && (o.Described? ==> TrueManifest(t, w, p) == Some(o.manifest))
      && (SameAnswer(o, RemoteDescribe(t, CLEAN, w, p, io).1) <==>
            Loaded(t, d, w, p).None? || (io.online && FarManifest(t, w, p).Some?))
  {
    FarIsTrue(t, w, p);
    hide KeyFor, Stored, DescribesAlike, TrueManifest;
  }

  /**
   * Where what is hashed decides the manifest: after any sequence of describes of any packages in any source states,
   * cleans, failed or torn stores and damaged files, what a describe returns is the current source's manifest; and it
   * answers as if nothing had ever been cached exactly unless it hits on a source that does not describe here.
   */
  lemma CacheIsCoherent(t: Tools, scope: Scope, events: seq<Event>, w: Workspace, p: Bytes, io: Io)
    requires CollisionFree(t.digest) && DescribesAlike(t) && HashDecides(t, scope)
    requires In(scope, w, p) && AllAllowed(t, scope, events)
    ensures var d := Run(t, CLEAN, events);
      var o := LocalDescribe(t, d, w, p, io).1;
      && (o.Described? ==> TrueManifest(t, w, p) == Some(o.manifest))
      && (SameAnswer(o, LocalDescribe(t, CLEAN, w, p, io).1) <==>
            !Runnable(t, w, p) || Loaded(t, d, w, p).None? || ManifestAt(t, w, p).Some?)
  {
    CleanIsSound(t, scope);
    RunKeepsSound(t, scope, CLEAN, events);
    hide CollisionFree, DescribesAlike, HashDecides, AllAllowed, Run, In, SoundFor, LocalDescribe, SameAnswer, TrueManifest, Loaded;
    SoundAnswers(t, Run(t, CLEAN, events), w, p, io);
  }

  /** The same for a remote describe: it differs from an uncached one exactly when it hits and Modal would not answer. */
  lemma RemoteIsCoherent(t: Tools, scope: Scope, events: seq<Event>, w: Workspace, p: Bytes, io: Io)
    requires CollisionFree(t.digest) && DescribesAlike(t) && HashDecides(t, scope)
    requires In(scope, w, p) && AllAllowed(t, scope, events)
    ensures var d := Run(t, CLEAN, events);
      var o := RemoteDescribe(t, d, w, p, io).1;
      && (o.Described? ==> TrueManifest(t, w, p) == Some(o.manifest))
      && (SameAnswer(o, RemoteDescribe(t, CLEAN, w, p, io).1) <==>
            Loaded(t, d, w, p).None? || (io.online && FarManifest(t, w, p).Some?))
  {
    CleanIsSound(t, scope);
    RunKeepsSound(t, scope, CLEAN, events);
    hide CollisionFree, HashDecides, AllAllowed, Run, In, SoundFor, RemoteDescribe, SameAnswer, TrueManifest, Loaded, FarManifest;
    SoundFarAnswers(t, Run(t, CLEAN, events), w, p, io);
  }

  // ---- exactly when ----

  /** What a describe returns, if anything, is the source's manifest. */
  predicate TruthTold(t: Tools, d: Disk, w: Workspace, p: Bytes, io: Io) {
    var near, far := LocalDescribe(t, d, w, p, io).1, RemoteDescribe(t, d, w, p, io).1;
    && (near.Described? ==> TrueManifest(t, w, p) == Some(near.manifest))
    && (far.Described? ==> TrueManifest(t, w, p) == Some(far.manifest))
  }

  ghost predicate Coherent(t: Tools, scope: Scope) {
    forall events, w, p, io :: AllAllowed(t, scope, events) && In(scope, w, p) ==> TruthTold(t, Run(t, CLEAN, events), w, p, io)
  }

  const FINE := Io(Whole, Linked, true)

  /** The describe that stores a describable source's manifest. */
  function Storing(t: Tools, w: Workspace, p: Bytes): Event {
    if Runnable(t, w, p) && ManifestAt(t, w, p).Some? then Local(w, p, FINE) else Remote(w, p, FINE)
  }

  lemma OneEvent(t: Tools, e: Event)
    ensures Run(t, CLEAN, [e]) == After(t, CLEAN, e)
  {
    hide After;
    assert [e][..0] == [];
  }

  lemma StoringStores(t: Tools, w: Workspace, p: Bytes)
    requires DescribesAlike(t) && Describable(t, w, p) && KeyFor(t, w, p).Some?
    ensures Loaded(t, After(t, CLEAN, Storing(t, w, p)), w, p) == TrueManifest(t, w, p)
  {
    hide KeyFor, DescribesAlike;
    FarIsTrue(t, w, p);
  }

  lemma HitAnswers(t: Tools, d: Disk, w: Workspace, p: Bytes)
    requires Loaded(t, d, w, p).Some? && Loaded(t, d, w, p).value.entrypoints != []
    ensures RemoteDescribe(t, d, w, p, FINE).1 == Described(Loaded(t, d, w, p).value, None)
  {
    hide KeyFor, Loaded;
  }

  /** One describe of the first source, and the second is described with its manifest. */
  lemma SharedKeySharesAnswer(t: Tools, scope: Scope, w: Workspace, p: Bytes, w': Workspace, p': Bytes)
    requires CollisionFree(t.digest) && DescribesAlike(t) && In(scope, w, p) && In(scope, w', p')
    requires SameHashed(t, w, p, w', p') && Describable(t, w, p)
    ensures AllAllowed(t, scope, [Storing(t, w, p)])
    ensures RemoteDescribe(t, Run(t, CLEAN, [Storing(t, w, p)]), w', p', FINE).1 == Described(TrueManifest(t, w, p).value, None)
  {
    var d := Run(t, CLEAN, [Storing(t, w, p)]);
    OneEvent(t, Storing(t, w, p));
    StoringStores(t, w, p);
    SameKeyIff(t, w, p, w', p');
    assert Loaded(t, d, w', p') == TrueManifest(t, w, p);
    hide KeyFor, Run, TrueManifest, Loaded, RemoteDescribe, CollisionFree, DescribesAlike, WellFormed, Fits;
    HitAnswers(t, d, w', p');
  }

  /**
   * For any scope of workspaces, inside or out: every describe after every run returns the source's manifest exactly when
   * nothing outside what is hashed influences the manifest of a source that can be described.
   */
  lemma CoherentIff(t: Tools, scope: Scope)
    requires CollisionFree(t.digest) && DescribesAlike(t)
    ensures Coherent(t, scope) <==> HashDecides(t, scope)
  {
    hide CollisionFree, DescribesAlike, SameHashed, Describable, TrueManifest, Run, AllAllowed, In, LocalDescribe, RemoteDescribe;
    if HashDecides(t, scope) {
      forall events, w, p, io | AllAllowed(t, scope, events) && In(scope, w, p)
        ensures TruthTold(t, Run(t, CLEAN, events), w, p, io)
      {
        CacheIsCoherent(t, scope, events, w, p, io);
        RemoteIsCoherent(t, scope, events, w, p, io);
      }
    }
    if Coherent(t, scope) {
      forall w, p, w', p' | In(scope, w, p) && In(scope, w', p') && SameHashed(t, w, p, w', p') && Describable(t, w, p)
        ensures TrueManifest(t, w', p') == TrueManifest(t, w, p)
      {
        SharedKeySharesAnswer(t, scope, w, p, w', p');
        DescribableIsSome(t, w, p);
        assert TruthTold(t, Run(t, CLEAN, [Storing(t, w, p)]), w', p', FINE);
      }
    }
  }

  lemma DescribableIsSome(t: Tools, w: Workspace, p: Bytes)
    requires Describable(t, w, p)
    ensures TrueManifest(t, w, p).Some?
  {}

  /** Sources, place by place, decide the manifest of a source that can be described. */
  ghost predicate SourcesDecide(t: Tools) {
    forall w, p, w', p' :: Ordinary(w, p) && Ordinary(w', p') && SameByPlace(t, w, p, w', p') && Describable(t, w, p) ==>
      TrueManifest(t, w', p') == TrueManifest(t, w, p)
  }

  /** For closures inside the workspace: exactly when nothing outside the closure's sources influences the manifest. */
  lemma CoherentInsideIff(t: Tools)
    requires CollisionFree(t.digest) && DescribesAlike(t)
    ensures Coherent(t, Inside) <==> SourcesDecide(t)
  {
    CoherentIff(t, Inside);
    hide Coherent, CollisionFree, DescribesAlike, Describable, TrueManifest, KeyFor, WellFormed, Fits, SameSources, SameSightings;
    forall w, p, w', p' | Ordinary(w, p) && Ordinary(w', p') && KeyFor(t, w, p).Some? && KeyFor(t, w', p').Some?
      ensures SameHashed(t, w, p, w', p') <==> SameByPlace(t, w, p, w', p')
    {
      InsideSightings(t, w, p, w', p');
    }
  }

  /** The assumption about builds is enough for it. */
  lemma AssumedIsCoherent(t: Tools)
    requires Assumed(t)
    ensures HashDecides(t, Inside) && Coherent(t, Inside)
  {
    CoherentIff(t, Inside);
    hide Coherent, CollisionFree, DescribesAlike, Describable, KeyFor, WellFormed, Fits, SameSources, SameSightings, ManifestAt, FarManifest;
    forall w, p, w', p' | In(Inside, w, p) && In(Inside, w', p') && SameHashed(t, w, p, w', p') && Describable(t, w, p)
      ensures TrueManifest(t, w', p') == TrueManifest(t, w, p)
    {
      InsideSightings(t, w, p, w', p');
    }
  }

  /** A crate that builds on Modal only: once described there, it is described here too, where uncached it fails. */
  lemma RemoteWarmsLocal(w: Workspace, p: Bytes, io: Io)
    requires KeyPreimage(w, p, false).Some? && io.write.Whole? && io.online
    ensures var m := Manifest([ManifestEntry("f", "gpu")]);
      var t := Tools(b => b, (_, _) => None, (_, _) => BuildFailed, (_, _) => Some([1]), _ => Some(m));
      && Assumed(t)
      && LocalDescribe(t, CLEAN, w, p, io).1 == Failed(CargoFailed)
      && LocalDescribe(t, Run(t, CLEAN, [Remote(w, p, io)]), w, p, io).1 == Described(m, None)
  {
    hide KeyPreimage, Fits, WellNamed, SameSources;
    var m := Manifest([ManifestEntry("f", "gpu")]);
    var t := Tools(b => b, (_, _) => None, (_, _) => BuildFailed, (_, _) => Some([1]), _ => Some(m));
    assert [Remote(w, p, io)][..0] == [];
    assert Run(t, CLEAN, [Remote(w, p, io)]) == RemoteDescribe(t, CLEAN, w, p, io).0;
  }

  // ---- what the key cannot see ----

  lemma HitAnswersHere(t: Tools, d: Disk, w: Workspace, p: Bytes)
    requires Loaded(t, d, w, p).Some? && Loaded(t, d, w, p).value.entrypoints != [] && Runnable(t, w, p)
    ensures var o := LocalDescribe(t, d, w, p, FINE).1; o.Described? && o.manifest == Loaded(t, d, w, p).value
  {
    hide KeyFor, Loaded;
  }

  lemma SharedKeyAnswersHere(t: Tools, w: Workspace, w': Workspace, p: Bytes)
    requires KeyFor(t, w, p).Some? && KeyFor(t, w, p) == KeyFor(t, w', p)
    requires DescribesAlike(t) && Describable(t, w, p) && Runnable(t, w', p)
    ensures var o := LocalDescribe(t, Run(t, CLEAN, [Storing(t, w, p)]), w', p, FINE).1;
      o.Described? && Some(o.manifest) == TrueManifest(t, w, p)
  {
    var d := Run(t, CLEAN, [Storing(t, w, p)]);
    OneEvent(t, Storing(t, w, p));
    StoringStores(t, w, p);
    assert Loaded(t, d, w', p) == Loaded(t, d, w, p) == TrueManifest(t, w, p);
    hide KeyFor, Run, TrueManifest, Loaded, LocalDescribe, DescribesAlike;
    HitAnswersHere(t, d, w', p);
  }

  const OLD := Manifest([ManifestEntry("f", "old")])
  const NEW := Manifest([ManifestEntry("f", "new")])

  function OldOrNew(b: Bytes): Option<Manifest> { Some(if b == [0] then OLD else NEW) }

  /** The first source is described as "old", the second as "new", under one key: the second is answered with "old". */
  lemma OldAnswersNew(t: Tools, w: Workspace, w': Workspace, p: Bytes)
    requires t.target(w, p).None? && t.target(w', p).None? && t.remote(w, p).None? && DescribesAlike(t)
    requires t.local(w, p) == Ran([], Some([0])) && t.local(w', p) == Ran([], Some([1]))
    requires t.decode([0]) == Some(OLD) && t.decode([1]) == Some(NEW)
    requires KeyPreimage(w, p, false).Some? && KeyPreimage(w, p, false) == KeyPreimage(w', p, false)
    ensures var o := LocalDescribe(t, Run(t, CLEAN, [Local(w, p, FINE)]), w', p, FINE).1;
      ManifestAt(t, w', p) == Some(NEW) && o.Described? && o.manifest == OLD
  {
    hide KeyPreimage, Run, LocalDescribe, DescribesAlike;
    SharedKeyAnswersHere(t, w, w', p);
  }

  /** The entrypoint is configured "old" while the file at `place` is a source `times` times, and "new" otherwise. */
  function PlaceTools(place: Place, content: Bytes, times: nat): Tools {
    Tools(b => b, (_, _) => None,
          (w: Workspace, p: Bytes) => Ran([], Some(if CoveredTimes(w, place, content, times) then [0] else [1])),
          (_, _) => None, OldOrNew)
  }

  predicate CoveredTimes(w: Workspace, place: Place, content: Bytes, times: nat) {
    w.closure.Some? && Coverage(w.root, w.closure.value, place, Some(content)) == times
  }

  /** It keeps every assumption, for closures anywhere: what it describes depends on the sources by place only. */
  lemma PlaceToolsReadSources(place: Place, content: Bytes, times: nat)
    ensures var t := PlaceTools(place, content, times);
      CollisionFree(t.digest) && DescribesAlike(t) && ReadsOnlySources(t, Anywhere)
  {
    hide KeyFor, WellFormed, Fits, Coverage;
    var t := PlaceTools(place, content, times);
    forall w, p, w', p' | In(Anywhere, w, p) && In(Anywhere, w', p') && SameByPlace(t, w, p, w', p')
      ensures ManifestAt(t, w, p) == ManifestAt(t, w', p')
    {
      SameCoverage(t, w, p, w', p', place, content, times);
    }
  }

  lemma SameCoverage(t: Tools, w: Workspace, p: Bytes, w': Workspace, p': Bytes, place: Place, content: Bytes, times: nat)
    requires SameByPlace(t, w, p, w', p')
    ensures CoveredTimes(w, place, content, times) == CoveredTimes(w', place, content, times)
  {
    hide Coverage;
    ClosureKnown(w, p, Generatable(t, w, p));
    ClosureKnown(w', p', Generatable(t, w', p'));
    assert Coverage(w.root, w.closure.value, place, Some(content)) == Coverage(w'.root, w'.closure.value, place, Some(content));
  }

  /**
   * Why closures inside the workspace are another matter: in a world that keeps every assumption, a source file moves from
   * one outside crate to another, each keeping all else it has; the described entrypoint changes with it, and the cache
   * answers with the old one.
   */
  lemma OutsideClosuresMislead(root: Listing, x: Path, y: Path, a: Listing, b: Listing, file: Name, content: Bytes, p: Bytes)
    requires x != y && IsCacheInput(file) && Readable(a) && Readable(b)
    requires WellNamed(root) && WellNamed(With(file, content, a)) && WellNamed(With(file, content, b))
    ensures var w, w' := InFirst(root, x, y, a, b, file, content), InSecond(root, x, y, a, b, file, content);
      var t := PlaceTools(Beyond(x + [file]), content, Coverage(w.root, w.closure.value, Beyond(x + [file]), Some(content)));
      var o := LocalDescribe(t, Run(t, CLEAN, [Local(w, p, FINE)]), w', p, FINE).1;
      && CollisionFree(t.digest) && DescribesAlike(t) && ReadsOnlySources(t, Anywhere)
      && ManifestAt(t, w', p) == Some(NEW) && o.Described? && o.manifest == OLD
  {
    var w, w' := InFirst(root, x, y, a, b, file, content), InSecond(root, x, y, a, b, file, content);
    MovedCoverage(root, x, y, a, b, file, content);
    OutsideDirectoriesCollide(root, x, y, a, b, file, content, p, false);
    MovedReadable(root, x, y, a, b, file, content, p);
    var place, times := Beyond(x + [file]), Coverage(w.root, w.closure.value, Beyond(x + [file]), Some(content));
    PlaceToolsReadSources(place, content, times);
    hide KeyPreimage, Coverage, SameSources, SameSightings, Run, LocalDescribe, ManifestAt, ReadsOnlySources, DescribesAlike;
    hide CollisionFree, WellNamed, Readable, IsCacheInput, WellFormed, With;
    OldAnswersNew(PlaceTools(place, content, times), w, w', p);
  }

  lemma MovedReadable(root: Listing, x: Path, y: Path, a: Listing, b: Listing, file: Name, content: Bytes, p: Bytes)
    requires Readable(a) && Readable(b)
    ensures KeyPreimage(InFirst(root, x, y, a, b, file, content), p, false).Some?
  {
    var w := InFirst(root, x, y, a, b, file, content);
    assert Readable(With(file, content, a));
    hide KeyPreimage, Readable, With, Lookup;
    var dirs := w.closure.value;
    assert |dirs| == 2 && dirs[0] == Outside(x, With(file, content, a)) && dirs[1] == Outside(y, b);
    assert ListingOf(root, dirs[0]) == Some(With(file, content, a)) && ListingOf(root, dirs[1]) == Some(b);
    ReadableHasKey(w, p, false);
  }

  const APP: Name := [0x61, 0x70, 0x70]
  const GEN: Name := [0x67, 0x65, 0x6e]

  /** A target crate whose directory is the closure, beside a crate that cargo's closure leaves out. */
  function Beside(app: Listing, gen: Listing, lockfile: Option<Bytes>): Workspace {
    Workspace(Item(APP, Folder(app), Item(GEN, Folder(gen), End)), Some([Dir.Inside([APP])]), lockfile)
  }

  lemma BesideFormed(app: Listing, gen: Listing, lockfile: Option<Bytes>)
    requires WellNamed(app) && WellNamed(gen)
    ensures var w := Beside(app, gen, lockfile);
      && WellFormed(w) && w.closure == Some([Dir.Inside([APP])]) && InWorkspace(w.closure.value)
      && ListingOf(w.root, Dir.Inside([APP])) == Some(app)
  {}

  lemma BesideSharesKey(app: Listing, gen: Listing, gen': Listing, lockfile: Option<Bytes>, p: Bytes, g: bool)
    requires WellNamed(app) && WellNamed(gen) && WellNamed(gen') && Readable(app)
    ensures var w, w' := Beside(app, gen, lockfile), Beside(app, gen', lockfile);
      && WellFormed(w) && WellFormed(w') && InWorkspace(w.closure.value)
      && KeyPreimage(w, p, g).Some? && KeyPreimage(w, p, g) == KeyPreimage(w', p, g)
  {
    var w, w' := Beside(app, gen, lockfile), Beside(app, gen', lockfile);
    BesideFormed(app, gen, lockfile);
    BesideFormed(app, gen', lockfile);
    ReorderedItself(Trim(app));
    assert w.lockfile == w'.lockfile;
    hide Trim, Reordered, Readable, ListingOf, KeyPreimage, WellFormed, Beside;
    IrrelevantChange(w, w', p, g);
    ReadableHasKey(w, p, g);
  }

  /** The entrypoint follows the other crate, as when it is a build dependency that generates code. */
  function GenTools(): Tools {
    Tools(b => b, (_, _) => None,
          (w: Workspace, p: Bytes) => Ran([], Some(if Lookup(w.root, [GEN, LIB_RS]) == Some(Regular(Some([1]))) then [0] else [1])),
          (_, _) => None, OldOrNew)
  }

  /**
   * The closure follows normal dependencies between workspace members only. Editing a build dependency, or a crate that
   * is no member, leaves the key, and the cache answers with the manifest from before the edit.
   */
  lemma LeftOutDependencyMisleads(app: Listing, lockfile: Option<Bytes>, p: Bytes)
    requires WellNamed(app) && Readable(app)
    ensures var w, w' := Beside(app, OneFile(LIB_RS, [1]), lockfile), Beside(app, OneFile(LIB_RS, [2]), lockfile);
      var t := GenTools();
      var o := LocalDescribe(t, Run(t, CLEAN, [Local(w, p, FINE)]), w', p, FINE).1;
      && In(Inside, w, p) == Fits(w, p) && CollisionFree(t.digest) && DescribesAlike(t)
      && ManifestAt(t, w', p) == Some(NEW) && o.Described? && o.manifest == OLD
  {
    var w, w' := Beside(app, OneFile(LIB_RS, [1]), lockfile), Beside(app, OneFile(LIB_RS, [2]), lockfile);
    BesideSharesKey(app, OneFile(LIB_RS, [1]), OneFile(LIB_RS, [2]), lockfile, p, false);
    GenAnswers(app, [1], lockfile, p);
    GenAnswers(app, [2], lockfile, p);
    GenDescribesAlike();
    hide KeyPreimage, Fits, Run, LocalDescribe, Readable, Lookup, ManifestAt, DescribesAlike, OneFile, Beside, WellNamed, GenTools;
    OldAnswersNew(GenTools(), w, w', p);
  }

  lemma GenAnswers(app: Listing, content: Bytes, lockfile: Option<Bytes>, p: Bytes)
    ensures var t, w := GenTools(), Beside(app, OneFile(LIB_RS, content), lockfile);
      && t.target(w, p).None? && t.remote(w, p).None? && t.decode([0]) == Some(OLD) && t.decode([1]) == Some(NEW)
      && t.local(w, p) == Ran([], Some(if content == [1] then [0] else [1]))
  {
    GenLookup(app, content, lockfile);
    hide Lookup, Beside, OneFile;
  }

  lemma GenDescribesAlike()
    ensures CollisionFree(GenTools().digest) && DescribesAlike(GenTools())
  {
    hide Lookup;
  }

  lemma GenLookup(app: Listing, content: Bytes, lockfile: Option<Bytes>)
    ensures Lookup(Beside(app, OneFile(LIB_RS, content), lockfile).root, [GEN, LIB_RS]) == Some(Regular(Some(content)))
  {
    assert [GEN, LIB_RS][1..] == [LIB_RS];
    assert Lookup(OneFile(LIB_RS, content), [LIB_RS]) == Some(Regular(Some(content)));
  }

  // ---- verifying a manifest ----

  predicate Asks(t: Tools, d: Disk, w: Workspace, p: Bytes) { Loaded(t, d, w, p).None? }

  /**
   * The remote leg of a verification asks Modal exactly when there is no key, or the local leg missed and could not
   * store; otherwise it reads back the manifest the local leg left under the very same key.
   */
  lemma VerifyAsksModalIff(t: Tools, d: Disk, w: Workspace, p: Bytes, io: Io)
    requires LocalDescribe(t, d, w, p, io).1.Described?
    ensures Asks(t, LocalDescribe(t, d, w, p, io).0, w, p) <==>
      KeyFor(t, w, p).None? || (Loaded(t, d, w, p).None? && !io.write.Whole? && TearsBadly(t, io))
  {
    hide KeyFor;
  }

  /** When it does not ask, the comparison is of a manifest with itself: it passes, whatever Modal would have said. */
  lemma UnaskedVerifyPasses(t: Tools, d: Disk, w: Workspace, p: Bytes, io: Io, io': Io)
    requires var (d1, local) := LocalDescribe(t, d, w, p, io); local.Described? && !Asks(t, d1, w, p)
    ensures TearsBadly(t, io) ==> VerifyManifest(t, d, w, p, io, io').1 == LocalDescribe(t, d, w, p, io).1
  {
    hide KeyFor, Index;
  }

  /** When it does ask, passing means Modal described the same index of entrypoints and configs. */
  lemma AskedVerifyCompares(t: Tools, d: Disk, w: Workspace, p: Bytes, io: Io, io': Io)
    requires var (d1, local) := LocalDescribe(t, d, w, p, io); local.Described? && Asks(t, d1, w, p)
    ensures var local := LocalDescribe(t, d, w, p, io).1;
      var o := VerifyManifest(t, d, w, p, io, io').1;
      var far := if io'.online then FarManifest(t, w, p) else None;
      && (o == local <==> far.Some? && far.value.entrypoints != [] && Index(far.value.entrypoints) == Index(local.manifest.entrypoints))
      && (o == Failed(Diverged) <==> far.Some? && far.value.entrypoints != [] && Index(far.value.entrypoints) != Index(local.manifest.entrypoints))
  {
    hide KeyFor, Index, LocalDescribe, Stored;
  }

  /** So with a working cache a real divergence goes unseen: here, an entrypoint whose config differs by platform. */
  lemma DivergenceGoesUnseen(w: Workspace, p: Bytes, io: Io, io': Io)
    requires KeyPreimage(w, p, false).Some? && io.write.Whole? && io'.online
    ensures var here, there := Manifest([ManifestEntry("f", "cpu")]), Manifest([ManifestEntry("f", "gpu")]);
      var t := Tools(b => b, (_, _) => None, (_, _) => Ran([], Some([0])), (_, _) => Some([1]),
                     b => if b == [0] then Some(here) else Some(there));
      && Index(here.entrypoints) != Index(there.entrypoints)
      && RemoteDescribe(t, CLEAN, w, p, io').1 == Described(there, None)
      && VerifyManifest(t, CLEAN, w, p, io, io').1 == Described(here, Some([]))
  {
    hide KeyPreimage;
    assert Index([ManifestEntry("f", "cpu")])["f"] == "cpu" && Index([ManifestEntry("f", "gpu")])["f"] == "gpu";
  }

  // ---- the pinned runner ----

  /** A hit returns whatever runner was pinned last, so editing a source and undoing the edit leaves the runner of the edit. */
  lemma UndoneEditKeepsRunner(t: Tools, a: Workspace, b: Workspace, p: Bytes, io: Io)
    requires io.write.Whole? && io.pinning.Linked? && KeyFor(t, a, p).Some? && KeyFor(t, b, p).Some? && KeyFor(t, a, p) != KeyFor(t, b, p)
    requires LocalDescribe(t, CLEAN, a, p, io).1.Described? && LocalDescribe(t, CLEAN, b, p, io).1.Described?
    ensures var d := Run(t, CLEAN, [Local(a, p, io), Local(b, p, io)]);
      LocalDescribe(t, d, a, p, io).1 == Described(LocalDescribe(t, CLEAN, a, p, io).1.manifest, Some(t.local(b, p).artifact))
  {
    hide KeyFor;
    var d1 := LocalDescribe(t, CLEAN, a, p, io).0;
    var first, second := Local(a, p, io), Local(b, p, io);
    assert [first, second][..1] == [first] && [first][..0] == [];
    assert Run(t, CLEAN, [first]) == After(t, Run(t, CLEAN, []), first) == d1;
    var d2 := LocalDescribe(t, d1, b, p, io).0;
    assert Run(t, CLEAN, [first, second]) == d2;
  }

  function PinOf(d: Disk, p: Bytes): Option<Runner> { if p in d.pins then Some(d.pins[p]) else None }

  predicate Builds(t: Tools, d: Disk, w: Workspace, p: Bytes) {
    !(t.target(w, p).Some? && !t.target(w, p).value.runnable) && Loaded(t, d, w, p).None? && t.local(w, p).Ran?
  }

  function PinnedAs(artifact: Runner, io: Io): Option<Runner> {
    match io.pinning case Linked => Some(artifact) case Unlinked(left) => left
  }

  /** What the last local build of the package left pinned, if nothing was cleaned since. */
  function LastBuilt(t: Tools, events: seq<Event>, p: Bytes): Option<Runner> {
    if events == [] then None
    else
      var init, e := events[..|events| - 1], events[|events| - 1];
      if e.Clean? then None
      else if (e.Local? || e.Verify?) && e.p == p && Builds(t, Run(t, CLEAN, init), e.w, p) then
        PinnedAs(t.local(e.w, p).artifact, e.io)
      else LastBuilt(t, init, p)
  }

  lemma LocalPins(t: Tools, d: Disk, w: Workspace, q: Bytes, io: Io, p: Bytes)
    ensures PinOf(LocalDescribe(t, d, w, q, io).0, p) ==
      if q != p || !Builds(t, d, w, q) then PinOf(d, p)
      else PinnedAs(t.local(w, q).artifact, io)
  {
    hide Loaded, KeyFor;
  }

  lemma RemotePinsNothing(t: Tools, d: Disk, w: Workspace, q: Bytes, io: Io)
    ensures RemoteDescribe(t, d, w, q, io).0.pins == d.pins
  {
    hide Loaded, KeyFor;
  }

  lemma {:induction false} PinIsLastBuilt(t: Tools, events: seq<Event>, p: Bytes)
    ensures PinOf(Run(t, CLEAN, events), p) == LastBuilt(t, events, p)
  {
    hide LocalDescribe, RemoteDescribe, Builds;
    if events != [] {
      var init, e := events[..|events| - 1], events[|events| - 1];
      var d := Run(t, CLEAN, init);
      PinIsLastBuilt(t, init, p);
      match e
      case Local(w, q, io) => LocalPins(t, d, w, q, io, p);
      case Remote(w, q, io) => RemotePinsNothing(t, d, w, q, io);
      case Verify(w, q, io, io') =>
        LocalPins(t, d, w, q, io, p);
        RemotePinsNothing(t, LocalDescribe(t, d, w, q, io).0, w, q, io');
      case Clean =>
      case Damage(_, _) =>
    }
  }

  /**
   * After any run, the runner a describe returns is that of the described source exactly when it builds, or the last
   * local build of the package left that very runner pinned.
   */
  lemma RunnerMatchesIff(t: Tools, events: seq<Event>, w: Workspace, p: Bytes, io: Io)
    requires LocalDescribe(t, Run(t, CLEAN, events), w, p, io).1.Described? && t.local(w, p).Ran?
    ensures LocalDescribe(t, Run(t, CLEAN, events), w, p, io).1.runner == Some(t.local(w, p).artifact) <==>
      Loaded(t, Run(t, CLEAN, events), w, p).None? || LastBuilt(t, events, p) == Some(t.local(w, p).artifact)
  {
    hide Loaded, Stored, Run, LastBuilt;
    PinIsLastBuilt(t, events, p);
  }

  // ---- a world where all of this happens ----

  function LockText(w: Workspace): Bytes { if w.lockfile.Some? then w.lockfile.value else [] }

  /** Runner and manifest both follow the lock file, here as on Modal; the digest keeps everything. */
  function LockTools(): Tools {
    Tools(b => b, (_, _) => None, (w: Workspace, p: Bytes) => Ran(LockText(w), Some(LockText(w))),
          (w: Workspace, p: Bytes) => Some(LockText(w)), b => Some(Manifest([ManifestEntry("f", HexOf(b))])))
  }

  /** A workspace that is one crate's directory, with this lock file. */
  function Locked(lockfile: Bytes): Workspace {
    Workspace(OneFile(CARGO_TOML, [3]), Some([Dir.Inside([])]), Some(lockfile))
  }

  lemma LockedEntries(lockfile: Bytes)
    ensures SortedEntries(Locked(lockfile)) == Some([Entry(CARGO_TOML, Some([3]))])
  {
    var root, f := OneFile(CARGO_TOML, [3]), File([CARGO_TOML], Some([3]));
    OneFileWalk(CARGO_TOML, [3]);
    CollectOne(root, Dir.Inside([]));
    KeyedOne(f);
    SortOne(KeyOf(f));
    JoinOne(CARGO_TOML);
    hide Walk, Collect, Keyed, SortByPath, Join;
  }

  lemma JoinOne(name: Name)
    ensures Join([name]) == name
  {}

  lemma SortOne(e: Entry)
    ensures SortByPath([e]) == [e]
  {
    assert SortByPath([]) == [] && [e][1..] == [];
  }

  lemma CollectOne(root: Listing, d: Dir)
    ensures Collect(root, [d]) == WalkOf(root, d)
  {
    hide WalkOf;
    CollectSnoc(root, [], d);
    assert [] + [d] == [d] && Collect(root, []) == Some([]);
    BothNothing(WalkOf(root, d));
  }

  lemma OneFileWalk(name: Name, content: Bytes)
    requires IsCacheInput(name)
    ensures Walk(OneFile(name, content), []) == Some([File([name], Some(content))])
  {
    assert Walk(End, []) == Some([]);
    assert [] + [name] == [name];
    assert [File([name], Some(content))] + [] == [File([name], Some(content))];
    assert Visit(name, Regular(Some(content)), []) == Some([File([name], Some(content))]);
  }

  lemma LockedKey(lockfile: Bytes, p: Bytes)
    ensures AllRead([Entry(CARGO_TOML, Some([3]))])
    ensures KeyFor(LockTools(), Locked(lockfile), p)
         == Some(HexOf(Preimage(p, false, Some(lockfile), [Entry(CARGO_TOML, Some([3]))])))
  {
    LockedEntries(lockfile);
    hide SortedEntries, Preimage, HexOf;
  }

  lemma LockKeysDiffer(p: Bytes)
    requires Sized(p)
    ensures var a, b := Locked([1]), Locked([2]);
      KeyFor(LockTools(), a, p).Some? && KeyFor(LockTools(), b, p).Some? && KeyFor(LockTools(), a, p) != KeyFor(LockTools(), b, p)
  {
    LockedKey([1], p);
    LockedKey([2], p);
    var es := [Entry(CARGO_TOML, Some([3]))];
    assert EntriesSized(es);
    hide KeyFor, LockTools, Locked, Preimage, HexOf, EntriesSized;
    LocksTell(p, es, [1], [2]);
  }

  lemma LocksTell(p: Bytes, es: seq<Entry>, l: Bytes, l': Bytes)
    requires Sized(p) && AllRead(es) && EntriesSized(es) && Sized(l) && Sized(l') && l != l'
    ensures HexOf(Preimage(p, false, Some(l), es)) != HexOf(Preimage(p, false, Some(l'), es))
  {
    hide Preimage, HexOf, EntriesSized, AllRead;
    var x, y := Preimage(p, false, Some(l), es), Preimage(p, false, Some(l'), es);
    PreimageIsExact(p, false, Some(l), es, p, false, Some(l'), es);
    if HexOf(x) == HexOf(y) {
      HexIsInjective(x, y);
    }
  }

  lemma LockToolsAssumed()
    ensures Assumed(LockTools())
  {
    hide HexOf, KeyFor, Fits, WellFormed, SameSources;
  }

  /** The assumptions can be met; and meeting them does not keep the runner in step with the manifest. */
  lemma RunnerCanBeStale(p: Bytes, io: Io)
    requires Sized(p) && io.write.Whole? && io.pinning.Linked?
    ensures Assumed(LockTools())
    ensures var t, a, b := LockTools(), Locked([1]), Locked([2]);
      var o := LocalDescribe(t, Run(t, CLEAN, [Local(a, p, io), Local(b, p, io)]), a, p, io).1;
      o.Described? && Some(o.manifest) == ManifestAt(t, a, p) && o.runner == Some([2]) && t.local(a, p).artifact == [1]
  {
    LockToolsAssumed();
    hide HexOf, KeyFor, Assumed;
    var t, a, b := LockTools(), Locked([1]), Locked([2]);
    LockKeysDiffer(p);
    UndoneEditKeepsRunner(t, a, b, p, io);
  }
}
