/** A source tree as directory listings, the walk that collects a closure's sources, and exactly what it finds. */
module SourceTree {
  import opened Wrappers
  import opened ByteStrings

  type Name = Bytes

  type Path = seq<Name>

  const SLASH: byte := 0x2f
  const TARGET: Name := [0x74, 0x61, 0x72, 0x67, 0x65, 0x74]
  const GIT: Name := [0x2e, 0x67, 0x69, 0x74]
  const CARGO_TOML: Name := [0x43, 0x61, 0x72, 0x67, 0x6f, 0x2e, 0x74, 0x6f, 0x6d, 0x6c]
  const RS: Bytes := [0x2e, 0x72, 0x73]

  /** A file whose read fails has no content. `Other` is a symlink, a socket and the like. */
  datatype Node = Folder(listing: Listing) | Regular(content: Option<Bytes>) | Other

  /** A directory in the order the system lists it; `Unlisted` is where listing it breaks off. */
  datatype Listing = End | Unlisted | Item(name: Name, node: Node, rest: Listing)

  predicate Pruned(name: Name) { name == TARGET || name == GIT }

  /** `is_cache_input`. */
  predicate IsCacheInput(name: Name) {
    name == CARGO_TOML || (|name| >= |RS| && name[|name| - |RS|..] == RS)
  }

  predicate PlainName(name: Name) { name != [] && SLASH !in name }

  predicate PlainPath(p: Path) { forall i :: 0 <= i < |p| ==> PlainName(p[i]) }

  function Names(l: Listing): set<Name> { if l.Item? then {l.name} + Names(l.rest) else {} }

  /** What a file system ensures: each directory names each entry once, without a separator. */
  predicate WellNamed(l: Listing) {
    l.Item? ==>
      PlainName(l.name) && l.name !in Names(l.rest) && WellNamed(l.rest) && (l.node.Folder? ==> WellNamed(l.node.listing))
  }

  /** Path resolution. */
  function Lookup(l: Listing, p: Path): Option<Node>
    requires p != []
  {
    if !l.Item? then None
    else if l.name != p[0] then Lookup(l.rest, p)
    else if |p| == 1 then Some(l.node)
    else if l.node.Folder? then Lookup(l.node.listing, p[1..])
    else None
  }

  lemma {:induction false} LookupNames(l: Listing, p: Path)
    requires p != [] && WellNamed(l) && Lookup(l, p).Some?
    ensures p[0] in Names(l) && PlainPath(p)
  {
    if l.name != p[0] {
      LookupNames(l.rest, p);
    } else if |p| > 1 {
      LookupNames(l.node.listing, p[1..]);
      assert forall i :: 1 <= i < |p| ==> p[i] == p[1..][i - 1];
    }
  }

  /** Resolving a path through a directory is resolving the rest inside it. */
  lemma {:induction false} LookupConcat(l: Listing, a: Path, b: Path)
    requires a != [] && b != []
    requires Lookup(l, a).Some? && Lookup(l, a).value.Folder?
    ensures Lookup(l, a + b) == Lookup(Lookup(l, a).value.listing, b)
  {
    if l.name != a[0] {
      LookupConcat(l.rest, a, b);
    } else if |a| == 1 {
      assert (a + b)[1..] == b;
    } else {
      LookupConcat(l.node.listing, a[1..], b);
      assert (a + b)[1..] == a[1..] + b;
    }
  }

  // ---- the walk ----

  datatype File = File(path: Path, content: Option<Bytes>)

  function Walk(l: Listing, at: Path): Option<seq<File>>
    decreases l, 1
  {
    match l
    case End => Some([])
    case Unlisted => None
    case Item(name, node, rest) => Both(Visit(name, node, at), Walk(rest, at))
  }

  function Visit(name: Name, node: Node, at: Path): Option<seq<File>>
    decreases node, 0
  {
    match node
    case Folder(listing) => if Pruned(name) then Some([]) else Walk(listing, at + [name])
    case Regular(content) => if IsCacheInput(name) then Some([File(at + [name], content)]) else Some([])
    case Other => Some([])
  }

  function Both(a: Option<seq<File>>, b: Option<seq<File>>): Option<seq<File>> {
    if a.Some? && b.Some? then Some(a.value + b.value) else None
  }

  /** A path below a walked directory is collected unless a folder on the way is pruned. */
  predicate Wanted(p: Path) {
    p != [] && IsCacheInput(p[|p| - 1]) && forall i :: 0 <= i < |p| - 1 ==> !Pruned(p[i])
  }

  predicate Relevant(l: Listing, p: Path, content: Option<Bytes>) {
    Wanted(p) && Lookup(l, p) == Some(Regular(content))
  }

  lemma {:induction false} WalkUnder(l: Listing, at: Path, f: File)
    requires WellNamed(l) && PlainPath(at) && Walk(l, at).Some? && f in Walk(l, at).value
    ensures at < f.path && PlainPath(f.path)
    decreases l, 1
  {
    if f in Visit(l.name, l.node, at).value {
      VisitUnder(l.name, l.node, at, f);
    } else {
      WalkUnder(l.rest, at, f);
    }
  }

  lemma {:induction false} VisitUnder(name: Name, node: Node, at: Path, f: File)
    requires PlainName(name) && (node.Folder? ==> WellNamed(node.listing))
    requires PlainPath(at) && Visit(name, node, at).Some? && f in Visit(name, node, at).value
    ensures at + [name] <= f.path && PlainPath(f.path)
    decreases node, 0
  {
    if node.Folder? {
      WalkUnder(node.listing, at + [name], f);
    }
  }

  function Times(fs: seq<File>, f: File): nat { multiset(fs)[f] }

  lemma TimesBoth(a: seq<File>, b: seq<File>, f: File)
    ensures Times(a + b, f) == Times(a, f) + Times(b, f)
  {
    assert multiset(a + b) == multiset(a) + multiset(b);
  }

  lemma WantedBelow(p: Path)
    requires |p| > 1
    ensures Wanted(p) <==> !Pruned(p[0]) && Wanted(p[1..])
  {
    if !Pruned(p[0]) && Wanted(p[1..]) {
      forall i | 0 <= i < |p| - 1 ensures !Pruned(p[i]) {
        if i > 0 {
          assert !Pruned(p[1..][i - 1]);
        }
      }
    }
    if Wanted(p) {
      assert forall i :: 0 <= i < |p| - 2 ==> p[1..][i] == p[i + 1];
    }
  }

  /**
   * The walk collects each relevant file once and nothing else, in whatever order directories list their entries: a
   * cache input reached through no pruned folder.
   */
  lemma {:induction false} WalkExact(l: Listing, at: Path, p: Path, content: Option<Bytes>)
    requires WellNamed(l) && PlainPath(at) && Walk(l, at).Some? && p != []
    ensures Times(Walk(l, at).value, File(at + p, content)) == if Relevant(l, p, content) then 1 else 0
    decreases l, 1
  {
    hide Wanted, Times;
    if l.Item? {
      var here, more := Visit(l.name, l.node, at).value, Walk(l.rest, at).value;
      TimesBoth(here, more, File(at + p, content));
      WalkExact(l.rest, at, p, content);
      if p[0] == l.name {
        if Lookup(l.rest, p).Some? {
          LookupNames(l.rest, p);
        }
        VisitExact(l.name, l.node, at, p, content);
      } else {
        VisitElsewhere(l.name, l.node, at, p, content);
      }
    } else {
      NoneInEmpty(File(at + p, content));
    }
  }

  lemma NoneInEmpty(f: File)
    ensures Times([], f) == 0
  {}

  lemma VisitElsewhere(name: Name, node: Node, at: Path, p: Path, content: Option<Bytes>)
    requires PlainName(name) && (node.Folder? ==> WellNamed(node.listing)) && PlainPath(at)
    requires Visit(name, node, at).Some? && p != [] && p[0] != name
    ensures Times(Visit(name, node, at).value, File(at + p, content)) == 0
  {
    hide Walk, WellNamed;
    var f := File(at + p, content);
    assert (at + p)[|at|] == p[0] && (at + [name])[|at|] == name;
    if f in Visit(name, node, at).value {
      VisitUnder(name, node, at, f);
    }
  }

  predicate Hit(name: Name, node: Node, p: Path, content: Option<Bytes>)
    requires p != []
  {
    if |p| == 1 then IsCacheInput(p[0]) && node == Regular(content)
    else node.Folder? && !Pruned(name) && Relevant(node.listing, p[1..], content)
  }

  lemma {:induction false} VisitExact(name: Name, node: Node, at: Path, p: Path, content: Option<Bytes>)
    requires PlainName(name) && (node.Folder? ==> WellNamed(node.listing)) && PlainPath(at)
    requires Visit(name, node, at).Some? && p != [] && p[0] == name
    ensures Times(Visit(name, node, at).value, File(at + p, content)) == if Hit(name, node, p, content) then 1 else 0
    ensures Hit(name, node, p, content) <==> Relevant(Item(name, node, End), p, content)
    decreases node, 0
  {
    var f := File(at + p, content);
    if |p| > 1 {
      WantedBelow(p);
      assert (at + [name]) + p[1..] == at + p;
    } else {
      assert p == [name];
    }
    match node
    case Folder(listing) =>
      hide Walk, Wanted;
      if !Pruned(name) {
        if |p| > 1 {
          WalkExact(listing, at + [name], p[1..], content);
        } else if f in Walk(listing, at + [name]).value {
          WalkUnder(listing, at + [name], f);
        }
      }
    case Regular(_) =>
      assert at + [name] == at + p <==> |p| == 1;
    case Other =>
  }

  // ---- a closure's directories ----

  /** A closure directory: below the workspace root, or at a place of its own with its own tree. */
  datatype Dir = Inside(path: Path) | Outside(at: Path, listing: Listing)

  /** Where a source file really is: by its path in the workspace, or by its absolute path outside. */
  datatype Place = Within(path: Path) | Beyond(path: Path)

  function ListingOf(root: Listing, d: Dir): Option<Listing> {
    match d
    case Outside(_, l) => Some(l)
    case Inside(p) =>
      if p == [] then Some(root)
      else match Lookup(root, p) case Some(Folder(l)) => Some(l) case _ => None
  }

  /** Keys are relative to the workspace root, or for an outside directory to that directory itself. */
  function KeyRoot(d: Dir): Path { if d.Inside? then d.path else [] }

  function WalkOf(root: Listing, d: Dir): Option<seq<File>> {
    match ListingOf(root, d)
    case None => None
    case Some(l) => Walk(l, KeyRoot(d))
  }

  function Collect(root: Listing, dirs: seq<Dir>): Option<seq<File>> {
    if dirs == [] then Some([])
    else Both(Collect(root, dirs[..|dirs| - 1]), WalkOf(root, dirs[|dirs| - 1]))
  }

  lemma CollectSnoc(root: Listing, dirs: seq<Dir>, d: Dir)
    ensures Collect(root, dirs + [d]) == Both(Collect(root, dirs), WalkOf(root, d))
  {
    assert (dirs + [d])[..|dirs|] == dirs;
  }

  /** The file at `place` is one of `d`'s sources. */
  predicate Covers(root: Listing, d: Dir, place: Place, content: Option<Bytes>) {
    match (d, place)
    case (Inside(dir), Within(path)) => dir < path && Wanted(path[|dir|..]) && Lookup(root, path) == Some(Regular(content))
    case (Outside(dir, l), Beyond(path)) => dir < path && Relevant(l, path[|dir|..], content)
    case _ => false
  }

  /** How many closure directories have the file at `place` among their sources, with this content. */
  function Coverage(root: Listing, dirs: seq<Dir>, place: Place, content: Option<Bytes>): nat {
    if dirs == [] then 0
    else
      Coverage(root, dirs[..|dirs| - 1], place, content) + if Covers(root, dirs[|dirs| - 1], place, content) then 1 else 0
  }

  /** The content of the source that `d` keys under `path`, if it has one. */
  function Sighting(root: Listing, d: Dir, path: Path): Option<Option<Bytes>> {
    if ListingOf(root, d).None? || !(KeyRoot(d) < path) || !Wanted(path[|KeyRoot(d)|..]) then None
    else
      match Lookup(ListingOf(root, d).value, path[|KeyRoot(d)|..])
      case Some(Regular(content)) => Some(content)
      case _ => None
  }

  /** Every content keyed under `path`, in closure order. */
  function Sightings(root: Listing, dirs: seq<Dir>, path: Path): seq<Option<Bytes>> {
    if dirs == [] then []
    else
      var last := Sighting(root, dirs[|dirs| - 1], path);
      Sightings(root, dirs[..|dirs| - 1], path) + if last.Some? then [last.value] else []
  }

  predicate OutsideWellNamed(dirs: seq<Dir>) {
    forall i :: 0 <= i < |dirs| && dirs[i].Outside? ==> WellNamed(dirs[i].listing)
  }

  predicate InWorkspace(dirs: seq<Dir>) {
    forall i :: 0 <= i < |dirs| ==> dirs[i].Inside?
  }

  lemma {:induction false} SubtreeWellNamed(l: Listing, p: Path)
    requires WellNamed(l) && p != [] && Lookup(l, p).Some? && Lookup(l, p).value.Folder?
    ensures WellNamed(Lookup(l, p).value.listing)
  {
    if l.name != p[0] {
      SubtreeWellNamed(l.rest, p);
    } else if |p| > 1 {
      SubtreeWellNamed(l.node.listing, p[1..]);
    }
  }

  lemma DirListing(root: Listing, d: Dir)
    requires WellNamed(root) && d.Inside? && ListingOf(root, d).Some?
    ensures WellNamed(ListingOf(root, d).value) && PlainPath(d.path)
    ensures forall p: Path :: p != [] ==> Lookup(root, d.path + p) == Lookup(ListingOf(root, d).value, p)
  {
    if d.path != [] {
      SubtreeWellNamed(root, d.path);
      LookupNames(root, d.path);
    }
    forall p: Path | p != [] ensures Lookup(root, d.path + p) == Lookup(ListingOf(root, d).value, p) {
      if d.path != [] {
        LookupConcat(root, d.path, p);
      } else {
        assert d.path + p == p;
      }
    }
  }

  /** A directory keys each of its sources once, and under plain paths. */
  lemma DirSees(root: Listing, d: Dir, path: Path, content: Option<Bytes>)
    requires WellNamed(root) && (d.Outside? ==> WellNamed(d.listing)) && WalkOf(root, d).Some?
    ensures Times(WalkOf(root, d).value, File(path, content)) == if Sighting(root, d, path) == Some(content) then 1 else 0
    ensures forall f :: f in WalkOf(root, d).value ==> PlainPath(f.path) && f.path != []
  {
    hide Walk, Lookup, WellNamed, Wanted;
    if d.Inside? {
      DirListing(root, d);
    }
    var l := ListingOf(root, d).value;
    if KeyRoot(d) < path {
      var p := path[|KeyRoot(d)|..];
      assert KeyRoot(d) + p == path;
      WalkExact(l, KeyRoot(d), p, content);
    } else if File(path, content) in WalkOf(root, d).value {
      WalkUnder(l, KeyRoot(d), File(path, content));
    }
    forall f | f in WalkOf(root, d).value ensures PlainPath(f.path) && f.path != [] {
      WalkUnder(l, KeyRoot(d), f);
    }
  }

  /** Inside the workspace, what a directory keys under a path is what the workspace has there. */
  lemma InsideSighting(root: Listing, d: Dir, path: Path, content: Option<Bytes>)
    requires WellNamed(root) && d.Inside? && ListingOf(root, d).Some?
    ensures Sighting(root, d, path) == Some(content) <==> Covers(root, d, Within(path), content)
  {
    DirListing(root, d);
    if d.path < path {
      assert d.path + path[|d.path|..] == path;
    }
    hide Lookup, ListingOf, WellNamed, Wanted;
  }

  lemma DirExact(root: Listing, d: Dir, path: Path, content: Option<Bytes>)
    requires WellNamed(root) && d.Inside? && WalkOf(root, d).Some?
    ensures Times(WalkOf(root, d).value, File(path, content)) == if Covers(root, d, Within(path), content) then 1 else 0
    ensures forall f :: f in WalkOf(root, d).value ==> PlainPath(f.path)
  {
    hide Walk, ListingOf, WellNamed, Times, Sighting, Covers;
    DirSees(root, d, path, content);
    InsideSighting(root, d, path, content);
  }

  /** A file is collected as many times as there are closure directories it is a source of. */
  lemma {:induction false} CollectExact(root: Listing, dirs: seq<Dir>, path: Path, content: Option<Bytes>)
    requires WellNamed(root) && InWorkspace(dirs) && Collect(root, dirs).Some?
    ensures Times(Collect(root, dirs).value, File(path, content)) == Coverage(root, dirs, Within(path), content)
  {
    hide WalkOf, Covers, Times;
    if dirs == [] {
      NoneInEmpty(File(path, content));
    } else {
      var init, d := dirs[..|dirs| - 1], dirs[|dirs| - 1];
      CollectExact(root, init, path, content);
      DirExact(root, d, path, content);
      TimesBoth(Collect(root, init).value, WalkOf(root, d).value, File(path, content));
    }
  }

  /** What is collected under a path is what the tree holds there. */
  lemma {:induction false} CollectedIsInTree(root: Listing, dirs: seq<Dir>, f: File)
    requires WellNamed(root) && InWorkspace(dirs) && Collect(root, dirs).Some? && f in Collect(root, dirs).value
    ensures PlainPath(f.path) && f.path != [] && Lookup(root, f.path) == Some(Regular(f.content))
  {
    hide WalkOf, Wanted, Lookup, WellNamed;
    var init, d := dirs[..|dirs| - 1], dirs[|dirs| - 1];
    if f in WalkOf(root, d).value {
      DirExact(root, d, f.path, f.content);
    } else {
      CollectedIsInTree(root, init, f);
    }
  }

  // ---- when everything can be read ----

  /** Every directory lists to its end and every file can be read. */
  predicate Readable(l: Listing) {
    match l
    case End => true
    case Unlisted => false
    case Item(_, node, rest) => ReadableNode(node) && Readable(rest)
  }

  predicate ReadableNode(node: Node) {
    match node
    case Folder(listing) => Readable(listing)
    case Regular(content) => content.Some?
    case Other => true
  }

  lemma {:induction false} ReadableWalk(l: Listing, at: Path)
    requires Readable(l)
    ensures Walk(l, at).Some? && forall f :: f in Walk(l, at).value ==> f.content.Some?
    decreases l, 1
  {
    if l.Item? {
      ReadableWalk(l.rest, at);
      ReadableVisit(l.name, l.node, at);
    }
  }

  lemma {:induction false} ReadableVisit(name: Name, node: Node, at: Path)
    requires ReadableNode(node)
    ensures Visit(name, node, at).Some? && forall f :: f in Visit(name, node, at).value ==> f.content.Some?
    decreases node, 0
  {
    if node.Folder? && !Pruned(name) {
      ReadableWalk(node.listing, at + [name]);
    }
  }

  predicate ReadableDirs(root: Listing, dirs: seq<Dir>) {
    forall i :: 0 <= i < |dirs| ==> ListingOf(root, dirs[i]).Some? && Readable(ListingOf(root, dirs[i]).value)
  }

  lemma {:induction false} ReadableCollect(root: Listing, dirs: seq<Dir>)
    requires ReadableDirs(root, dirs)
    ensures Collect(root, dirs).Some? && forall f :: f in Collect(root, dirs).value ==> f.content.Some?
  {
    hide ListingOf, Walk, Readable;
    if dirs != [] {
      var d := dirs[|dirs| - 1];
      ReadableCollect(root, dirs[..|dirs| - 1]);
      ReadableWalk(ListingOf(root, d).value, KeyRoot(d));
    }
  }

  // ---- what is collected under one path ----

  function Seen(fs: seq<File>, path: Path): seq<Option<Bytes>> {
    if fs == [] then []
    else Seen(fs[..|fs| - 1], path) + if fs[|fs| - 1].path == path then [fs[|fs| - 1].content] else []
  }

  lemma {:induction false} SeenBoth(a: seq<File>, b: seq<File>, path: Path)
    ensures Seen(a + b, path) == Seen(a, path) + Seen(b, path)
  {
    if b == [] {
      assert a + b == a;
    } else {
      var init := b[..|b| - 1];
      SeenBoth(a, init, path);
      assert (a + b)[..|a + b| - 1] == a + init;
      var last := if b[|b| - 1].path == path then [b[|b| - 1].content] else [];
      assert (Seen(a, path) + Seen(init, path)) + last == Seen(a, path) + (Seen(init, path) + last);
    }
  }

  lemma {:induction false} SeenCounts(fs: seq<File>, path: Path, content: Option<Bytes>)
    ensures multiset(Seen(fs, path))[content] == Times(fs, File(path, content))
  {
    if fs != [] {
      var init, last := fs[..|fs| - 1], fs[|fs| - 1];
      SeenCounts(init, path, content);
      assert fs == init + [last];
    }
  }

  lemma DirSeen(root: Listing, d: Dir, path: Path)
    requires WellNamed(root) && (d.Outside? ==> WellNamed(d.listing)) && WalkOf(root, d).Some?
    ensures var sighting := Sighting(root, d, path);
      Seen(WalkOf(root, d).value, path) == if sighting.Some? then [sighting.value] else []
  {
    hide WalkOf, Sighting, WellNamed, Seen, Times;
    var s, sighting := Seen(WalkOf(root, d).value, path), Sighting(root, d, path);
    forall content ensures multiset(s)[content] == if sighting == Some(content) then 1 else 0 {
      DirSees(root, d, path, content);
      SeenCounts(WalkOf(root, d).value, path, content);
    }
    assert s != [] ==> s[0] in multiset(s);
    if sighting.Some? {
      assert multiset(s) == multiset{sighting.value};
      assert |s| == |multiset(s)| == 1;
    }
  }

  /** Under each path the walk of a closure collects the sightings of its directories, in closure order. */
  lemma {:induction false} CollectSeen(root: Listing, dirs: seq<Dir>, path: Path)
    requires WellNamed(root) && OutsideWellNamed(dirs) && Collect(root, dirs).Some?
    ensures Seen(Collect(root, dirs).value, path) == Sightings(root, dirs, path)
  {
    hide WalkOf, Sighting, WellNamed;
    if dirs != [] {
      var init, d := dirs[..|dirs| - 1], dirs[|dirs| - 1];
      CollectSeen(root, init, path);
      DirSeen(root, d, path);
      SeenBoth(Collect(root, init).value, WalkOf(root, d).value, path);
    }
  }

  lemma {:induction false} CollectedIsPlain(root: Listing, dirs: seq<Dir>, f: File)
    requires WellNamed(root) && OutsideWellNamed(dirs) && Collect(root, dirs).Some? && f in Collect(root, dirs).value
    ensures PlainPath(f.path) && f.path != []
  {
    hide WalkOf, Sighting, WellNamed;
    var init, d := dirs[..|dirs| - 1], dirs[|dirs| - 1];
    if f in WalkOf(root, d).value {
      DirSees(root, d, f.path, f.content);
    } else {
      CollectedIsPlain(root, init, f);
    }
  }
}
