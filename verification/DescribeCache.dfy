/** The describe cache's key: what goes into it, computed in place, and exactly which workspaces share one. */
module DescribeCache {
  import opened Wrappers
  import opened ByteStrings
  import opened KeyFraming
  import opened SourceTree
  import opened SourceEdits
  import Json

  // ---- key paths ----

  /** Path components joined by `/`. */
  function Join(p: Path): Bytes {
    if p == [] then [] else if |p| == 1 then p[0] else p[0] + ([SLASH] + Join(p[1..]))
  }

  lemma FirstSlash(p: Path, n: nat)
    requires PlainPath(p) && |p| > 1 && n <= |p[0]|
    ensures n < |Join(p)| && (Join(p)[n] == SLASH <==> n == |p[0]|)
  {
    assert Join(p) == p[0] + ([SLASH] + Join(p[1..]));
    if n < |p[0]| {
      assert p[0][n] in p[0] && Join(p)[n] == p[0][n];
    }
  }

  lemma SlashWhenLong(p: Path)
    requires PlainPath(p) && p != []
    ensures SLASH in Join(p) <==> |p| > 1
  {
    if |p| > 1 {
      FirstSlash(p, |p[0]|);
    }
  }

  /** The first component is what precedes the first separator. */
  lemma SameFirst(p: Path, q: Path)
    requires PlainPath(p) && PlainPath(q) && p != [] && q != [] && Join(p) == Join(q)
    ensures p[0] == q[0] && (|p| == 1 <==> |q| == 1)
  {
    SlashWhenLong(p);
    SlashWhenLong(q);
    if |p| > 1 {
      var n := if |p[0]| <= |q[0]| then |p[0]| else |q[0]|;
      FirstSlash(p, n);
      FirstSlash(q, n);
      HeadIsDetermined(p[0], [SLASH] + Join(p[1..]), q[0], [SLASH] + Join(q[1..]));
    }
  }

  lemma {:induction false} JoinIsInjective(p: Path, q: Path)
    requires PlainPath(p) && PlainPath(q) && p != [] && q != [] && Join(p) == Join(q)
    ensures p == q
  {
    SameFirst(p, q);
    if |p| > 1 {
      HeadIsDetermined(p[0], [SLASH] + Join(p[1..]), q[0], [SLASH] + Join(q[1..]));
      HeadIsDetermined([SLASH], Join(p[1..]), [SLASH], Join(q[1..]));
      JoinIsInjective(p[1..], q[1..]);
    }
    assert p == [p[0]] + p[1..] && q == [q[0]] + q[1..];
  }

  function KeyOf(f: File): Entry { Entry(Join(f.path), f.content) }

  function Keyed(fs: seq<File>): (es: seq<Entry>)
    ensures |es| == |fs| && forall i :: 0 <= i < |fs| ==> es[i] == KeyOf(fs[i])
  {
    if fs == [] then [] else Keyed(fs[..|fs| - 1]) + [KeyOf(fs[|fs| - 1])]
  }

  predicate AllPlain(fs: seq<File>) {
    forall i :: 0 <= i < |fs| ==> PlainPath(fs[i].path) && fs[i].path != []
  }

  lemma KeyedSnoc(init: seq<File>, last: File)
    ensures multiset(Keyed(init + [last])) == multiset(Keyed(init)) + multiset{KeyOf(last)}
    ensures multiset(init + [last]) == multiset(init) + multiset{last}
  {
    hide KeyOf;
    assert (init + [last])[..|init|] == init;
  }

  lemma KeyedCountsOneMore(init: seq<File>, last: File, f: File)
    requires PlainPath(last.path) && last.path != [] && PlainPath(f.path) && f.path != []
    requires multiset(Keyed(init))[KeyOf(f)] == Times(init, f)
    ensures multiset(Keyed(init + [last]))[KeyOf(f)] == Times(init + [last], f)
  {
    hide Keyed, PlainPath;
    if KeyOf(last) == KeyOf(f) {
      JoinIsInjective(last.path, f.path);
    }
    KeyedSnoc(init, last);
  }

  /** Keying a file as one joined string keeps how often it occurs. */
  lemma {:induction false} KeyedCounts(fs: seq<File>, f: File)
    requires AllPlain(fs) && PlainPath(f.path) && f.path != []
    ensures multiset(Keyed(fs))[KeyOf(f)] == Times(fs, f)
  {
    hide KeyOf, PlainPath;
    if fs != [] {
      var init, last := fs[..|fs| - 1], fs[|fs| - 1];
      assert PlainPath(last.path) && last.path != [] && AllPlain(init);
      hide AllPlain, Keyed, Times;
      KeyedCounts(init, f);
      assert fs == init + [last];
      KeyedCountsOneMore(init, last, f);
    }
  }

  lemma KeyedIn(fs: seq<File>, e: Entry) returns (f: File)
    requires e in Keyed(fs)
    ensures f in fs && KeyOf(f) == e
  {
    var i :| 0 <= i < |fs| && Keyed(fs)[i] == e;
    return fs[i];
  }

  lemma KeyedIsExact(fs: seq<File>, gs: seq<File>)
    requires AllPlain(fs) && AllPlain(gs)
    ensures multiset(Keyed(fs)) == multiset(Keyed(gs)) <==> forall f :: Times(fs, f) == Times(gs, f)
  {
    hide Join, Keyed;
    if multiset(Keyed(fs)) == multiset(Keyed(gs)) {
      forall f ensures Times(fs, f) == Times(gs, f) {
        if f in fs || f in gs {
          KeyedCounts(fs, f);
          KeyedCounts(gs, f);
        }
      }
    }
    if forall f :: Times(fs, f) == Times(gs, f) {
      forall e ensures multiset(Keyed(fs))[e] == multiset(Keyed(gs))[e] {
        if e in Keyed(fs) || e in Keyed(gs) {
          var f := KeyedIn(if e in Keyed(fs) then fs else gs, e);
          KeyedCounts(fs, f);
          KeyedCounts(gs, f);
        }
      }
    }
  }

  // ---- the key ----

  /** `closure` is the package's cargo closure, absent when metadata fails; `lockfile` what reading `Cargo.lock` gives. */
  datatype Workspace = Workspace(root: Listing, closure: Option<seq<Dir>>, lockfile: Option<Bytes>)

  function SortedEntries(w: Workspace): Option<seq<Entry>> {
    if w.closure.None? || Collect(w.root, w.closure.value).None? then None
    else Some(SortByPath(Keyed(Collect(w.root, w.closure.value).value)))
  }

  /** What is hashed; nothing when the closure, a directory or a collected file cannot be read. */
  function KeyPreimage(w: Workspace, package: Bytes, generatable: bool): Option<Bytes> {
    match SortedEntries(w)
    case None => None
    case Some(es) => if AllRead(es) then Some(Preimage(package, generatable, w.lockfile, es)) else None
  }

  /** Everything hashed fits in memory. */
  ghost predicate Fits(w: Workspace, package: Bytes) {
    && Sized(package) && (w.lockfile.Some? ==> Sized(w.lockfile.value))
    && (SortedEntries(w).Some? ==> EntriesSized(SortedEntries(w).value))
  }

  lemma CollectedDetermine(w: Workspace)
    requires WellNamed(w.root) && w.closure.Some? && InWorkspace(w.closure.value) && Collect(w.root, w.closure.value).Some?
    ensures AllPlain(Collect(w.root, w.closure.value).value)
    ensures PathsDetermine(Keyed(Collect(w.root, w.closure.value).value))
  {
    hide Collect, Lookup, WellNamed, Join;
    var fs := Collect(w.root, w.closure.value).value;
    forall i | 0 <= i < |fs| ensures PlainPath(fs[i].path) && fs[i].path != [] && Lookup(w.root, fs[i].path) == Some(Regular(fs[i].content)) {
      CollectedIsInTree(w.root, w.closure.value, fs[i]);
    }
    var es := Keyed(fs);
    forall i, j | 0 <= i < |es| && 0 <= j < |es| && es[i].rel == es[j].rel ensures es[i] == es[j] {
      JoinIsInjective(fs[i].path, fs[j].path);
    }
  }

  /** Every source file, by where it is, is covered equally often with the same content in both workspaces. */
  ghost predicate SameSources(w: Workspace, w': Workspace)
    requires w.closure.Some? && w'.closure.Some?
  {
    forall place, content ::
      Coverage(w.root, w.closure.value, place, content) == Coverage(w'.root, w'.closure.value, place, content)
  }

  lemma {:induction false} NothingBeyond(root: Listing, dirs: seq<Dir>, path: Path, content: Option<Bytes>)
    requires InWorkspace(dirs)
    ensures Coverage(root, dirs, Beyond(path), content) == 0
  {
    if dirs != [] {
      NothingBeyond(root, dirs[..|dirs| - 1], path, content);
    }
  }

  lemma EntriesAreExact(w: Workspace, w': Workspace)
    requires WellNamed(w.root) && WellNamed(w'.root) && SortedEntries(w).Some? && SortedEntries(w').Some?
    requires InWorkspace(w.closure.value) && InWorkspace(w'.closure.value)
    ensures SortedEntries(w) == SortedEntries(w') <==> SameSources(w, w')
  {
    hide Collect, Keyed, SortByPath, Coverage, Times, PathsDetermine, WellNamed;
    var fs, gs := Collect(w.root, w.closure.value).value, Collect(w'.root, w'.closure.value).value;
    CollectedDetermine(w);
    CollectedDetermine(w');
    SortForgetsOrder(Keyed(fs), Keyed(gs));
    KeyedIsExact(fs, gs);
    forall path, content
      ensures Times(fs, File(path, content)) == Coverage(w.root, w.closure.value, Within(path), content)
      ensures Times(gs, File(path, content)) == Coverage(w'.root, w'.closure.value, Within(path), content)
    {
      CollectExact(w.root, w.closure.value, path, content);
      CollectExact(w'.root, w'.closure.value, path, content);
    }
    CountsByParts(w, w', fs, gs);
  }

  lemma CountsByParts(w: Workspace, w': Workspace, fs: seq<File>, gs: seq<File>)
    requires w.closure.Some? && w'.closure.Some? && InWorkspace(w.closure.value) && InWorkspace(w'.closure.value)
    requires forall path, content :: Times(fs, File(path, content)) == Coverage(w.root, w.closure.value, Within(path), content)
    requires forall path, content :: Times(gs, File(path, content)) == Coverage(w'.root, w'.closure.value, Within(path), content)
    ensures (forall f :: Times(fs, f) == Times(gs, f)) <==> SameSources(w, w')
  {
    hide Coverage, Times;
    if forall f :: Times(fs, f) == Times(gs, f) {
      forall place, content
        ensures Coverage(w.root, w.closure.value, place, content) == Coverage(w'.root, w'.closure.value, place, content)
      {
        match place
        case Within(path) => assert Times(fs, File(path, content)) == Times(gs, File(path, content));
        case Beyond(path) =>
          NothingBeyond(w.root, w.closure.value, path, content);
          NothingBeyond(w'.root, w'.closure.value, path, content);
      }
    }
    if SameSources(w, w') {
      forall f ensures Times(fs, f) == Times(gs, f) {
        assert f == File(f.path, f.content);
        assert Coverage(w.root, w.closure.value, Within(f.path), f.content)
            == Coverage(w'.root, w'.closure.value, Within(f.path), f.content);
      }
    }
  }

  /**
   * For closures inside the workspace, two keys are computed from equal bytes exactly when package, flag, lock file and
   * sources agree. Listing order, pruned folders and other files do not matter, and nothing else is ignored.
   */
  lemma KeyIsExact(w: Workspace, p: Bytes, g: bool, w': Workspace, p': Bytes, g': bool)
    requires WellNamed(w.root) && WellNamed(w'.root) && Fits(w, p) && Fits(w', p')
    requires KeyPreimage(w, p, g).Some? && KeyPreimage(w', p', g').Some?
    requires InWorkspace(w.closure.value) && InWorkspace(w'.closure.value)
    ensures KeyPreimage(w, p, g) == KeyPreimage(w', p', g') <==>
      p == p' && g == g' && w.lockfile == w'.lockfile && SameSources(w, w')
  {
    EntriesAreExact(w, w');
    var es, es' := SortedEntries(w).value, SortedEntries(w').value;
    hide SameSources, SortedEntries, Preimage, EntriesSized;
    PreimageIsExact(p, g, w.lockfile, es, p', g', w'.lockfile, es');
  }

  // ---- closures that reach outside the workspace ----

  /** Directories hold what a file system can hold. */
  predicate WellFormed(w: Workspace) {
    WellNamed(w.root) && (w.closure.Some? ==> OutsideWellNamed(w.closure.value))
  }

  /** Under each key path, the same contents in closure order. */
  ghost predicate SameSightings(w: Workspace, w': Workspace)
    requires w.closure.Some? && w'.closure.Some?
  {
    forall path :: Sightings(w.root, w.closure.value, path) == Sightings(w'.root, w'.closure.value, path)
  }

  function Marked(rel: Bytes, contents: seq<Option<Bytes>>): seq<Entry> {
    if contents == [] then []
    else Marked(rel, contents[..|contents| - 1]) + [Entry(rel, contents[|contents| - 1])]
  }

  lemma {:induction false} MarkedIsInjective(rel: Bytes, a: seq<Option<Bytes>>, b: seq<Option<Bytes>>)
    requires Marked(rel, a) == Marked(rel, b)
    ensures a == b
  {
    if a != [] && b != [] {
      var x, y := [Entry(rel, a[|a| - 1])], [Entry(rel, b[|b| - 1])];
      var s := Marked(rel, a);
      assert s[..|s| - 1] == Marked(rel, a[..|a| - 1]) && s[|s| - 1] == x[0];
      assert s[..|s| - 1] == Marked(rel, b[..|b| - 1]) && s[|s| - 1] == y[0];
      MarkedIsInjective(rel, a[..|a| - 1], b[..|b| - 1]);
      assert a == a[..|a| - 1] + [a[|a| - 1]] && b == b[..|b| - 1] + [b[|b| - 1]];
    }
  }

  lemma AtSnoc(es: seq<Entry>, e: Entry, rel: Bytes)
    ensures At(es + [e], rel) == At(es, rel) + if e.rel == rel then [e] else []
  {
    AtConcat(es, [e], rel);
    assert [e][1..] == [] && At([], rel) == [];
  }

  lemma MarkedSnoc(rel: Bytes, init: seq<Option<Bytes>>, content: Option<Bytes>)
    ensures Marked(rel, init + [content]) == Marked(rel, init) + [Entry(rel, content)]
  {
    assert (init + [content])[..|init|] == init;
  }

  /** The entries under a joined path are the contents seen under the path. */
  lemma {:induction false} AtKeyed(fs: seq<File>, path: Path)
    requires AllPlain(fs) && PlainPath(path) && path != []
    ensures At(Keyed(fs), Join(path)) == Marked(Join(path), Seen(fs, path))
  {
    hide Join, PlainPath, At;
    if fs == [] {
      AtMissing([], Join(path));
    } else {
      var init, last := fs[..|fs| - 1], fs[|fs| - 1];
      assert PlainPath(last.path) && last.path != [] && AllPlain(init);
      AtKeyed(init, path);
      AtSnoc(Keyed(init), KeyOf(last), Join(path));
      MarkedSnoc(Join(path), Seen(init, path), last.content);
      hide Marked, AllPlain;
      assert Seen(init, path) + [] == Seen(init, path);
      assert At(Keyed(init), Join(path)) + [] == At(Keyed(init), Join(path));
      assert Keyed(fs) == Keyed(init) + [KeyOf(last)];
      if KeyOf(last).rel == Join(path) {
        JoinIsInjective(last.path, path);
      }
    }
  }

  lemma {:induction false} AtMissing(fs: seq<File>, rel: Bytes)
    requires forall i :: 0 <= i < |fs| ==> Join(fs[i].path) != rel
    ensures At(Keyed(fs), rel) == []
  {
    hide Join;
    if fs != [] {
      var init, last := fs[..|fs| - 1], fs[|fs| - 1];
      AtMissing(init, rel);
      AtSnoc(Keyed(init), KeyOf(last), rel);
    }
  }

  lemma {:induction false} SeenInPlain(fs: seq<File>, path: Path)
    requires AllPlain(fs) && Seen(fs, path) != []
    ensures PlainPath(path) && path != []
  {
    if fs[|fs| - 1].path != path {
      SeenInPlain(fs[..|fs| - 1], path);
    }
  }

  ghost predicate SameSeen(fs: seq<File>, gs: seq<File>) {
    forall path :: Seen(fs, path) == Seen(gs, path)
  }

  lemma KeyedByPath(fs: seq<File>, gs: seq<File>)
    requires AllPlain(fs) && AllPlain(gs)
    ensures SameByPath(Keyed(fs), Keyed(gs)) <==> SameSeen(fs, gs)
  {
    hide Join, Keyed, At, Seen, Marked;
    if SameByPath(Keyed(fs), Keyed(gs)) {
      forall path ensures Seen(fs, path) == Seen(gs, path) {
        if Seen(fs, path) != [] || Seen(gs, path) != [] {
          SeenInPlain(if Seen(fs, path) != [] then fs else gs, path);
          AtKeyed(fs, path);
          AtKeyed(gs, path);
          assert At(Keyed(fs), Join(path)) == At(Keyed(gs), Join(path));
          MarkedIsInjective(Join(path), Seen(fs, path), Seen(gs, path));
        }
      }
    }
    if SameSeen(fs, gs) {
      forall rel ensures At(Keyed(fs), rel) == At(Keyed(gs), rel) {
        SameAt(fs, gs, rel);
      }
    }
  }

  lemma SameAt(fs: seq<File>, gs: seq<File>, rel: Bytes)
    requires AllPlain(fs) && AllPlain(gs) && SameSeen(fs, gs)
    ensures At(Keyed(fs), rel) == At(Keyed(gs), rel)
  {
    hide Join, Keyed, At, Seen, Marked;
    var all := fs + gs;
    if i :| 0 <= i < |all| && Join(all[i].path) == rel {
      var path := all[i].path;
      assert PlainPath(path) && path != [] && Seen(fs, path) == Seen(gs, path);
      AtKeyed(fs, path);
      AtKeyed(gs, path);
    } else {
      assert forall i :: 0 <= i < |fs| ==> all[i] == fs[i];
      assert forall i :: 0 <= i < |gs| ==> all[|fs| + i] == gs[i];
      AtMissing(fs, rel);
      AtMissing(gs, rel);
    }
  }

  lemma CollectedPlain(w: Workspace)
    requires WellFormed(w) && w.closure.Some? && Collect(w.root, w.closure.value).Some?
    ensures AllPlain(Collect(w.root, w.closure.value).value)
  {
    hide Collect, WellNamed, PlainPath;
    var fs := Collect(w.root, w.closure.value).value;
    forall i | 0 <= i < |fs| ensures PlainPath(fs[i].path) && fs[i].path != [] {
      CollectedIsPlain(w.root, w.closure.value, fs[i]);
    }
  }

  lemma EntriesAnywhere(w: Workspace, w': Workspace)
    requires WellFormed(w) && WellFormed(w') && SortedEntries(w).Some? && SortedEntries(w').Some?
    ensures SortedEntries(w) == SortedEntries(w') <==> SameSightings(w, w')
  {
    CollectedPlain(w);
    CollectedPlain(w');
    var fs, gs := Collect(w.root, w.closure.value).value, Collect(w'.root, w'.closure.value).value;
    forall path
      ensures Seen(fs, path) == Sightings(w.root, w.closure.value, path)
      ensures Seen(gs, path) == Sightings(w'.root, w'.closure.value, path)
    {
      CollectSeen(w.root, w.closure.value, path);
      CollectSeen(w'.root, w'.closure.value, path);
    }
    hide Collect, Keyed, SortByPath, Seen, Sightings, AllPlain, WellFormed;
    KeyedByPath(fs, gs);
    SortKeepsPathOrder(Keyed(fs), Keyed(gs));
    SeenIsSighted(w, w', fs, gs);
  }

  lemma SeenIsSighted(w: Workspace, w': Workspace, fs: seq<File>, gs: seq<File>)
    requires w.closure.Some? && w'.closure.Some?
    requires forall path :: Seen(fs, path) == Sightings(w.root, w.closure.value, path)
    requires forall path :: Seen(gs, path) == Sightings(w'.root, w'.closure.value, path)
    ensures SameSeen(fs, gs) <==> SameSightings(w, w')
  {
    hide Seen, Sightings;
    if SameSeen(fs, gs) {
      forall path ensures Sightings(w.root, w.closure.value, path) == Sightings(w'.root, w'.closure.value, path) {
        assert Seen(fs, path) == Seen(gs, path);
      }
    }
    if SameSightings(w, w') {
      forall path ensures Seen(fs, path) == Seen(gs, path) {
        assert Sightings(w.root, w.closure.value, path) == Sightings(w'.root, w'.closure.value, path);
      }
    }
  }

  /**
   * For any closures: two keys are computed from equal bytes exactly when package, flag and lock file agree and, under
   * each key path, the closure directories hold the same contents in closure order. Where an outside directory is
   * does not enter.
   */
  lemma KeyIsExactAnywhere(w: Workspace, p: Bytes, g: bool, w': Workspace, p': Bytes, g': bool)
    requires WellFormed(w) && WellFormed(w') && Fits(w, p) && Fits(w', p')
    requires KeyPreimage(w, p, g).Some? && KeyPreimage(w', p', g').Some?
    ensures KeyPreimage(w, p, g) == KeyPreimage(w', p', g') <==>
      p == p' && g == g' && w.lockfile == w'.lockfile && SameSightings(w, w')
  {
    EntriesAnywhere(w, w');
    var es, es' := SortedEntries(w).value, SortedEntries(w').value;
    hide SameSightings, SortedEntries, Preimage, EntriesSized;
    PreimageIsExact(p, g, w.lockfile, es, p', g', w'.lockfile, es');
  }

  /**
   * An edit under pruned folders, of files that are no cache input, of other entries, or of the listing order anywhere
   * leaves the key as it was: present with the same bytes, or absent.
   */
  lemma IrrelevantChange(w: Workspace, w': Workspace, package: Bytes, generatable: bool)
    requires WellFormed(w) && WellFormed(w') && w.lockfile == w'.lockfile
    requires (w.closure.None? && w'.closure.None?)
      || (w.closure.Some? && w'.closure.Some? && Untouched(w.root, w.closure.value, w'.root, w'.closure.value))
    ensures KeyPreimage(w, package, generatable) == KeyPreimage(w', package, generatable)
  {
    if w.closure.Some? {
      UntouchedCollects(w.root, w.closure.value, w'.root, w'.closure.value);
      if SortedEntries(w).Some? {
        forall path ensures Sightings(w.root, w.closure.value, path) == Sightings(w'.root, w'.closure.value, path) {
          UntouchedSightings(w.root, w.closure.value, w'.root, w'.closure.value, path);
        }
        SameSightingsSameKey(w, w', package, generatable);
      }
    }
  }

  /** A workspace whose closure can be read has a key. */
  lemma ReadableHasKey(w: Workspace, package: Bytes, generatable: bool)
    requires w.closure.Some? && ReadableDirs(w.root, w.closure.value)
    ensures KeyPreimage(w, package, generatable).Some?
  {
    ReadableCollect(w.root, w.closure.value);
    var fs := Collect(w.root, w.closure.value).value;
    hide Collect, ReadableDirs;
    var es := Keyed(fs);
    SortSorts(es);
    var sorted := SortByPath(es);
    forall i | 0 <= i < |sorted| ensures sorted[i].bytes.Some? {
      assert sorted[i] in multiset(sorted);
      assert sorted[i] in es;
    }
  }

  const LIB_RS: Name := [0x6c, 0x69, 0x62, 0x2e, 0x72, 0x73]

  function OneFile(name: Name, content: Bytes): Listing { Item(name, Regular(Some(content)), End) }

  // ---- where outside directories are does not matter ----

  /** A source file of its own right at the top of a directory, beside whatever else the directory holds. */
  function With(file: Name, content: Bytes, rest: Listing): Listing { Item(file, Regular(Some(content)), rest) }

  /** Two outside directories, the file in the first or in the second. */
  function InFirst(root: Listing, x: Path, y: Path, a: Listing, b: Listing, file: Name, content: Bytes): Workspace {
    Workspace(root, Some([Outside(x, With(file, content, a)), Outside(y, b)]), None)
  }

  function InSecond(root: Listing, x: Path, y: Path, a: Listing, b: Listing, file: Name, content: Bytes): Workspace {
    Workspace(root, Some([Outside(x, a), Outside(y, With(file, content, b))]), None)
  }

  /**
   * So keys do collide: a source file moves from one directory outside the workspace to another, each keeping all else it
   * has. The sources differ by where they are; the key, present or absent, does not.
   */
  lemma OutsideDirectoriesCollide(root: Listing, x: Path, y: Path, a: Listing, b: Listing, file: Name, content: Bytes,
      package: Bytes, generatable: bool)
    requires x != y && IsCacheInput(file)
    requires WellNamed(root) && WellNamed(With(file, content, a)) && WellNamed(With(file, content, b))
    ensures var w, w' := InFirst(root, x, y, a, b, file, content), InSecond(root, x, y, a, b, file, content);
      && WellFormed(w) && WellFormed(w')
      && KeyPreimage(w, package, generatable) == KeyPreimage(w', package, generatable)
      && SameSightings(w, w')
      && !SameSources(w, w')
  {
    var w, w' := InFirst(root, x, y, a, b, file, content), InSecond(root, x, y, a, b, file, content);
    hide Collect, Coverage, Sightings, Preimage, Keyed, SortByPath;
    forall path ensures Sightings(w.root, w.closure.value, path) == Sightings(w'.root, w'.closure.value, path) {
      MovedSightings(root, x, y, a, b, file, content, path);
    }
    MovedCollects(root, x, y, a, b, file, content);
    MovedCoverage(root, x, y, a, b, file, content);
    SameSightingsSameKey(w, w', package, generatable);
  }

  /** Without a bound on sizes: the same sightings and lock file mean the same key, or none on both sides. */
  lemma SameSightingsSameKey(w: Workspace, w': Workspace, package: Bytes, generatable: bool)
    requires WellFormed(w) && WellFormed(w') && w.closure.Some? && w'.closure.Some? && w.lockfile == w'.lockfile
    requires Collect(w.root, w.closure.value).Some? <==> Collect(w'.root, w'.closure.value).Some?
    requires SameSightings(w, w')
    ensures KeyPreimage(w, package, generatable) == KeyPreimage(w', package, generatable)
  {
    hide WellFormed, SameSightings, Collect, Keyed, SortByPath, Preimage;
    if SortedEntries(w).Some? {
      EntriesAnywhere(w, w');
    }
  }

  lemma WalkWith(file: Name, content: Bytes, rest: Listing)
    ensures Walk(With(file, content, rest), []).Some? <==> Walk(rest, []).Some?
  {
    assert Visit(file, Regular(Some(content)), []).Some?;
  }

  lemma CollectTwo(root: Listing, c: Dir, d: Dir)
    ensures Collect(root, [c, d]).Some? <==> WalkOf(root, c).Some? && WalkOf(root, d).Some?
  {
    hide WalkOf;
    CollectSnoc(root, [], c);
    assert [] + [c] == [c];
    CollectSnoc(root, [c], d);
    assert [c] + [d] == [c, d];
  }

  lemma MovedCollects(root: Listing, x: Path, y: Path, a: Listing, b: Listing, file: Name, content: Bytes)
    ensures var w, w' := InFirst(root, x, y, a, b, file, content), InSecond(root, x, y, a, b, file, content);
      Collect(w.root, w.closure.value).Some? <==> Collect(w'.root, w'.closure.value).Some?
  {
    WalkWith(file, content, a);
    WalkWith(file, content, b);
    CollectTwo(root, Outside(x, With(file, content, a)), Outside(y, b));
    CollectTwo(root, Outside(x, a), Outside(y, With(file, content, b)));
    hide Walk, With, Collect;
  }

  /** Only the file's own path tells the two listings apart. */
  lemma LookupWith(file: Name, content: Bytes, rest: Listing, p: Path)
    requires p != [] && WellNamed(With(file, content, rest))
    ensures p == [file] ==> Lookup(With(file, content, rest), p) == Some(Regular(Some(content))) && Lookup(rest, p).None?
    ensures p != [file] ==> Lookup(With(file, content, rest), p) == Lookup(rest, p)
  {
    if Lookup(rest, p).Some? {
      LookupNames(rest, p);
    }
    if p != [file] && p[0] == file {
      assert |p| > 1;
    }
  }

  function Sees(s: Option<Option<Bytes>>): seq<Option<Bytes>> { if s.Some? then [s.value] else [] }

  lemma SightingsOfTwo(root: Listing, c: Dir, d: Dir, path: Path)
    ensures Sightings(root, [c, d], path) == Sees(Sighting(root, c, path)) + Sees(Sighting(root, d, path))
  {
    hide Sighting;
    assert [c, d][..1] == [c] && [c][..0] == [];
    assert Sightings(root, [c], path) == Sees(Sighting(root, c, path));
  }

  lemma OutsideSighting(root: Listing, at: Path, file: Name, content: Bytes, rest: Listing, path: Path)
    requires IsCacheInput(file) && WellNamed(With(file, content, rest))
    ensures path == [file] ==>
      Sighting(root, Outside(at, With(file, content, rest)), path) == Some(Some(content)) && Sighting(root, Outside(at, rest), path).None?
    ensures path != [file] ==>
      Sighting(root, Outside(at, With(file, content, rest)), path) == Sighting(root, Outside(at, rest), path)
  {
    if path != [] {
      assert path[0..] == path;
      LookupWith(file, content, rest, path);
      hide Lookup, WellNamed, With;
    }
  }

  lemma MovedSightings(root: Listing, x: Path, y: Path, a: Listing, b: Listing, file: Name, content: Bytes, path: Path)
    requires IsCacheInput(file) && WellNamed(With(file, content, a)) && WellNamed(With(file, content, b))
    ensures var w, w' := InFirst(root, x, y, a, b, file, content), InSecond(root, x, y, a, b, file, content);
      Sightings(w.root, w.closure.value, path) == Sightings(w'.root, w'.closure.value, path)
  {
    hide Sighting, WellNamed, With;
    OutsideSighting(root, x, file, content, a, path);
    OutsideSighting(root, y, file, content, b, path);
    PlaceOfOutside(root, x, y, a, path);
    SightingsOfTwo(root, Outside(x, With(file, content, a)), Outside(y, b), path);
    SightingsOfTwo(root, Outside(x, a), Outside(y, With(file, content, b)), path);
  }

  lemma PlaceOfOutside(root: Listing, x: Path, y: Path, l: Listing, path: Path)
    ensures Sighting(root, Outside(x, l), path) == Sighting(root, Outside(y, l), path)
  {}

  lemma CoverageSum(root: Listing, c: Dir, d: Dir, place: Place, content: Option<Bytes>)
    ensures Coverage(root, [c, d], place, content)
         == (if Covers(root, c, place, content) then 1 else 0) + if Covers(root, d, place, content) then 1 else 0
  {
    hide Covers;
    assert [c, d][..1] == [c] && [c][..0] == [];
    assert Coverage(root, [c], place, content) == if Covers(root, c, place, content) then 1 else 0;
  }

  /** Any other directory above a file is above its directory too. */
  lemma FileBelow(y: Path, x: Path, name: Name)
    requires x != y
    ensures y < x + [name] ==> |(x + [name])[|y|..]| > 1
  {
    assert (x + [name])[..|x|] == x;
  }

  /** The file is one source fewer where it was. */
  lemma MovedCoverage(root: Listing, x: Path, y: Path, a: Listing, b: Listing, file: Name, content: Bytes)
    requires x != y && IsCacheInput(file)
    requires WellNamed(With(file, content, a)) && WellNamed(With(file, content, b))
    ensures var w, w' := InFirst(root, x, y, a, b, file, content), InSecond(root, x, y, a, b, file, content);
      var place, c := Beyond(x + [file]), Some(content);
      Coverage(w.root, w.closure.value, place, c) == Coverage(w'.root, w'.closure.value, place, c) + 1
  {
    var path, c := x + [file], Some(content);
    assert path[|x|..] == [file];
    LookupWith(file, content, a, [file]);
    FileBelow(y, x, file);
    if y < path {
      LookupWith(file, content, b, path[|y|..]);
    }
    hide Lookup, WellNamed, With;
    var first, first', second, second' :=
      Outside(x, With(file, content, a)), Outside(x, a), Outside(y, b), Outside(y, With(file, content, b));
    assert Covers(root, first, Beyond(path), c) && !Covers(root, first', Beyond(path), c);
    assert Covers(root, second, Beyond(path), c) == Covers(root, second', Beyond(path), c);
    hide Covers;
    CoverageSum(root, first, second, Beyond(path), c);
    CoverageSum(root, first', second', Beyond(path), c);
  }

  // ---- computing it ----

  class Hasher {
    var fed: Bytes

    constructor ()
      ensures fed == []
    {
      fed := [];
    }

    method Update(b: Bytes)
      modifies this
      ensures fed == old(fed) + b
    {
      fed := fed + b;
    }

    /** `update_field`. */
    method UpdateField(b: Bytes)
      modifies this
      ensures fed == old(fed) + Field(b)
    {
      Update(Le(|b|, 8));
      Update(b);
      assert old(fed) + Field(b) == (old(fed) + Le(|b|, 8)) + b;
    }
  }

  function Size(l: Listing): nat {
    match l case End => 0 case Unlisted => 0 case Item(_, node, rest) => 1 + NodeSize(node) + Size(rest)
  }

  function NodeSize(node: Node): nat { if node.Folder? then 1 + Size(node.listing) else 0 }

  class Collector {
    var out: seq<Entry>

    constructor ()
      ensures out == []
    {
      out := [];
    }

    /** `walk_dir`: descends, prunes and pushes; stops at the first directory that cannot be read. */
    method WalkDir(listing: Listing, at: Path) returns (ok: bool)
      modifies this
      ensures ok <==> Walk(listing, at).Some?
      ensures ok ==> out == old(out) + Keyed(Walk(listing, at).value)
      decreases Size(listing)
    {
      hide KeyOf, Keyed, IsCacheInput, Pruned;
      var cursor := listing;
      ghost var seen: seq<File> := [];
      KeyedConcat([], []);
      BothNothing(Walk(listing, at));
      assert out == old(out) + [];
      while cursor.Item?
        invariant Size(cursor) <= Size(listing)
        invariant Walk(listing, at) == Both(Some(seen), Walk(cursor, at))
        invariant out == old(out) + Keyed(seen)
        decreases Size(cursor)
      {
        var name, node := cursor.name, cursor.node;
        ghost var before := out;
        if node.Folder? {
          if !Pruned(name) {
            var ok := WalkDir(node.listing, at + [name]);
            if !ok {
              return false;
            }
          }
        } else if node.Regular? && IsCacheInput(name) {
          KeyedOne(File(at + [name], node.content));
          out := out + [Entry(Join(at + [name]), node.content)];
        }
        ghost var here := Visit(name, node, at).value;
        assert out == before + Keyed(here) by { KeyedConcat([], []); }
        KeyedConcat(seen, here);
        assert (old(out) + Keyed(seen)) + Keyed(here) == old(out) + (Keyed(seen) + Keyed(here));
        BothAssociates(seen, here, Walk(cursor.rest, at));
        seen := seen + here;
        cursor := cursor.rest;
      }
      assert seen + [] == seen;
      return cursor.End?;
    }

    /** `collect_closure_files`. */
    method CollectClosureFiles(root: Listing, dirs: seq<Dir>) returns (ok: bool)
      requires out == []
      modifies this
      ensures ok <==> Collect(root, dirs).Some?
      ensures ok ==> out == Keyed(Collect(root, dirs).value)
    {
      hide Keyed, Walk, Collect;
      assert Collect(root, []) == Some([]) && Keyed([]) == [] by { CollectNothing(root); }
      for i := 0 to |dirs|
        invariant Collect(root, dirs[..i]).Some? && out == Keyed(Collect(root, dirs[..i]).value)
      {
        assert dirs[..i + 1] == dirs[..i] + [dirs[i]];
        CollectSnoc(root, dirs[..i], dirs[i]);
        var listing := ListingOf(root, dirs[i]);
        var ok := false;
        if listing.Some? {
          ok := WalkDir(listing.value, KeyRoot(dirs[i]));
        }
        if !ok {
          CollectFails(root, dirs, i + 1);
          return false;
        }
        KeyedConcat(Collect(root, dirs[..i]).value, WalkOf(root, dirs[i]).value);
      }
      assert dirs[..|dirs|] == dirs;
      return true;
    }
  }

  lemma CollectNothing(root: Listing)
    ensures Collect(root, []) == Some([]) && Keyed([]) == []
  {}

  lemma {:induction false} CollectFails(root: Listing, dirs: seq<Dir>, n: nat)
    requires n <= |dirs| && Collect(root, dirs[..n]).None?
    ensures Collect(root, dirs).None?
    decreases |dirs|
  {
    if n < |dirs| {
      var init := dirs[..|dirs| - 1];
      assert init[..n] == dirs[..n];
      CollectFails(root, init, n);
    } else {
      assert dirs[..n] == dirs;
    }
  }

  lemma BothNothing(rest: Option<seq<File>>)
    ensures Both(Some([]), rest) == rest
  {
    if rest.Some? {
      assert [] + rest.value == rest.value;
    }
  }

  lemma BothAssociates(a: seq<File>, b: seq<File>, rest: Option<seq<File>>)
    ensures Both(Some(a), Both(Some(b), rest)) == Both(Some(a + b), rest)
  {
    if rest.Some? {
      assert (a + b) + rest.value == a + (b + rest.value);
    }
  }

  lemma KeyedOne(f: File)
    ensures Keyed([f]) == [KeyOf(f)] && KeyOf(f) == Entry(Join(f.path), f.content)
  {}

  lemma KeyedConcat(a: seq<File>, b: seq<File>)
    ensures Keyed(a + b) == Keyed(a) + Keyed(b) && Keyed([]) == []
  {
    forall i | 0 <= i < |a + b| ensures Keyed(a + b)[i] == (Keyed(a) + Keyed(b))[i] {}
  }

  /** `hex`: two lower-case digits a byte. */
  method Hex(digest: Bytes) returns (s: string)
    ensures s == HexOf(digest)
  {
    s := "";
    for i := 0 to |digest|
      invariant s == HexOf(digest[..i])
    {
      assert digest[..i + 1][..i] == digest[..i];
      s := s + HexByte(digest[i]);
    }
    assert digest[..|digest|] == digest;
  }

  const DIGITS := "0123456789abcdef"

  function Digit(n: int): char
    requires 0 <= n < 16
  {
    DIGITS[n]
  }

  function HexByte(b: byte): (s: string)
    ensures |s| == 2
  {
    [Digit(b as int / 16), Digit(b as int % 16)]
  }

  function HexOf(digest: Bytes): (s: string)
    ensures |s| == 2 * |digest|
  {
    if digest == [] then "" else HexOf(digest[..|digest| - 1]) + HexByte(digest[|digest| - 1])
  }

  lemma HexByteIsInjective(a: byte, b: byte)
    requires HexByte(a) == HexByte(b)
    ensures a == b
  {
    assert HexByte(a)[0] == HexByte(b)[0] && HexByte(a)[1] == HexByte(b)[1];
    DigitIsInjective(a as int / 16, b as int / 16);
    DigitIsInjective(a as int % 16, b as int % 16);
  }

  lemma DigitIsInjective(m: int, n: int)
    requires 0 <= m < 16 && 0 <= n < 16 && Digit(m) == Digit(n)
    ensures m == n
  {}

  lemma {:induction false} HexIsInjective(a: Bytes, b: Bytes)
    requires HexOf(a) == HexOf(b)
    ensures a == b
  {
    hide HexByte;
    assert 2 * |a| == |HexOf(a)| == 2 * |b|;
    if a != [] {
      var n := |a| - 1;
      HeadIsDetermined(HexOf(a[..n]), HexByte(a[n]), HexOf(b[..n]), HexByte(b[n]));
      hide HexOf;
      HexIsInjective(a[..n], b[..n]);
      HexByteIsInjective(a[n], b[n]);
      assert a == a[..n] + [a[n]] && b == b[..n] + [b[n]];
    }
  }

  /** Digit by digit: the `i`-th byte is read back from its two characters, and no character is a capital. */
  lemma {:induction false} HexReadsBack(digest: Bytes, i: nat)
    requires i < |digest|
    ensures var s := HexOf(digest);
      && Json.Hex2(s[2 * i], s[2 * i + 1]) == Some(digest[i] as int)
      && !('A' <= s[2 * i] <= 'Z') && !('A' <= s[2 * i + 1] <= 'Z')
  {
    var n := |digest| - 1;
    if i < n {
      hide HexByte;
      HexReadsBack(digest[..n], i);
    } else {
      HexByteReadsBack(digest[n]);
    }
  }

  lemma HexByteReadsBack(b: byte)
    ensures var s := HexByte(b);
      Json.Hex2(s[0], s[1]) == Some(b as int) && !('A' <= s[0] <= 'Z') && !('A' <= s[1] <= 'Z')
  {
    DigitReadsBack(b as int / 16);
    DigitReadsBack(b as int % 16);
    hide Digit;
  }

  lemma DigitReadsBack(n: nat)
    requires n < 16
    ensures Json.HexValue(Digit(n)) == Some(n) && !('A' <= Digit(n) <= 'Z')
  {}

  function CacheKey(w: Workspace, package: Bytes, generatable: bool, digest: Bytes -> Bytes): Option<string> {
    match KeyPreimage(w, package, generatable) case None => None case Some(p) => Some(HexOf(digest(p)))
  }

  lemma {:induction false} FieldsSnoc(es: seq<Entry>, e: Entry)
    requires AllRead(es) && e.bytes.Some?
    ensures AllRead(es + [e]) && Fields(es + [e]) == Fields(es) + (Field(e.rel) + Field(e.bytes.value))
  {
    hide Field;
    if es == [] {
      assert [e][1..] == [];
      assert Fields([e]) == Field(e.rel) + (Field(e.bytes.value) + []);
    } else {
      FieldsSnoc(es[1..], e);
      assert (es + [e])[1..] == es[1..] + [e];
      FoldRight(Field(es[0].rel), Field(es[0].bytes.value), Fields(es[1..]), Field(e.rel) + Field(e.bytes.value));
    }
  }

  lemma FoldRight(a: Bytes, b: Bytes, c: Bytes, d: Bytes)
    ensures a + (b + (c + d)) == (a + (b + c)) + d
  {}

  /** `key`: the hasher is fed part after part, and any unreadable input means no key. */
  method Key(w: Workspace, package: Bytes, generatable: bool, digest: Bytes -> Bytes) returns (key: Option<string>)
    ensures key == CacheKey(w, package, generatable, digest)
  {
    if w.closure.None? {
      return None;
    }
    hide Field, Collect, Keyed, SortByPath, Le, LockFields, Flag;
    var hasher := new Hasher();
    hasher.Update(Le(DESCRIBE_CACHE_VERSION, 4));
    hasher.UpdateField(package);
    hasher.Update(Flag(generatable));
    FeedLock(hasher, w.lockfile);
    var collector := new Collector();
    var collected := collector.CollectClosureFiles(w.root, w.closure.value);
    if !collected {
      return None;
    }
    var files := SortByPath(collector.out);
    hasher.Update(Le(|files|, 8));
    ghost var head := hasher.fed;
    var ok := FeedFiles(hasher, files);
    if !ok {
      return None;
    }
    HeadThenFields(head, package, generatable, w.lockfile, files);
    var hex := Hex(digest(hasher.fed));
    return Some(hex);
  }

  lemma Assoc(a: Bytes, b: Bytes, c: Bytes)
    ensures (a + b) + c == a + (b + c)
  {}

  lemma HeadThenFields(head: Bytes, package: Bytes, generatable: bool, lockfile: Option<Bytes>, es: seq<Entry>)
    requires AllRead(es)
    requires head == (((([] + Le(DESCRIBE_CACHE_VERSION, 4)) + Field(package)) + Flag(generatable)) + LockFields(lockfile)) + Le(|es|, 8)
    ensures head + Fields(es) == Preimage(package, generatable, lockfile, es)
  {
    hide Field, Fields, Le, LockFields, Flag;
    var v, p, g, l, n := Le(DESCRIBE_CACHE_VERSION, 4), Field(package), Flag(generatable), LockFields(lockfile), Le(|es|, 8);
    assert [] + v == v;
    Assoc(((v + p) + g) + l, n, Fields(es));
    Assoc((v + p) + g, l, n + Fields(es));
    Assoc(v + p, g, l + (n + Fields(es)));
    Assoc(v, p, g + (l + (n + Fields(es))));
  }

  method FeedLock(hasher: Hasher, lockfile: Option<Bytes>)
    modifies hasher
    ensures hasher.fed == old(hasher.fed) + LockFields(lockfile)
  {
    match lockfile
    case Some(b) =>
      hasher.Update([1]);
      hasher.UpdateField(b);
      assert (old(hasher.fed) + [1]) + Field(b) == old(hasher.fed) + ([1] + Field(b));
    case None =>
      hasher.Update([0]);
  }

  /** Path then bytes, file after file, until one cannot be read. */
  method FeedFiles(hasher: Hasher, files: seq<Entry>) returns (ok: bool)
    modifies hasher
    ensures ok <==> AllRead(files)
    ensures ok ==> hasher.fed == old(hasher.fed) + Fields(files)
  {
    hide Field, Fields;
    assert Fields([]) == [] by { NoFields(); }
    assert hasher.fed == old(hasher.fed) + [];
    for i := 0 to |files|
      invariant AllRead(files[..i]) && hasher.fed == old(hasher.fed) + Fields(files[..i])
    {
      if files[i].bytes.None? {
        return false;
      }
      FieldsSnoc(files[..i], files[i]);
      assert files[..i + 1] == files[..i] + [files[i]];
      ghost var before, rel, text := Fields(files[..i]), Field(files[i].rel), Field(files[i].bytes.value);
      hasher.UpdateField(files[i].rel);
      hasher.UpdateField(files[i].bytes.value);
      assert ((old(hasher.fed) + before) + rel) + text == old(hasher.fed) + (before + (rel + text));
    }
    assert files[..|files|] == files;
    return true;
  }

  lemma NoFields()
    ensures Fields([]) == []
  {}
}
