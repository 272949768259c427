/** Changing what one file holds: which files the describe key sees, with the names written out, and exactly those. */
module ContentEdits {
  import opened Wrappers
  import opened ByteStrings
  import opened KeyFraming
  import opened SourceTree
  import opened DescribeCache

  // ---- names, as text ----

  /** An ASCII text as its bytes. */
  function Ascii(text: string): (b: Bytes)
    requires forall i :: 0 <= i < |text| ==> text[i] < 128 as char
    ensures |b| == |text|
  {
    seq(|text|, i requires 0 <= i < |text| => text[i] as int as byte)
  }

  ghost predicate SourceName(name: Name) {
    name == Ascii("Cargo.toml") || exists stem :: name == stem + Ascii(".rs")
  }

  predicate SkippedFolder(name: Name) { name == Ascii("target") || name == Ascii(".git") }

  lemma NamesAsText()
    ensures Ascii("Cargo.toml") == CARGO_TOML && Ascii(".rs") == RS && Ascii("target") == TARGET && Ascii(".git") == GIT
  {}

  lemma EndsWithIff(name: Name, suffix: Bytes)
    ensures |name| >= |suffix| && name[|name| - |suffix|..] == suffix <==> exists stem :: name == stem + suffix
  {
    if |name| >= |suffix| {
      assert name == name[..|name| - |suffix|] + name[|name| - |suffix|..];
    }
    if stem :| name == stem + suffix {
      assert (stem + suffix)[|stem|..] == suffix;
    }
  }

  /** Every manifest and every Rust source is hashed and no other file, and only `target` and `.git` are skipped. */
  lemma InputNames(name: Name)
    ensures IsCacheInput(name) <==> SourceName(name)
    ensures Pruned(name) <==> SkippedFolder(name)
  {
    NamesAsText();
    EndsWithIff(name, RS);
    hide Ascii;
  }

  /** A key path is written with one `/` between components. */
  lemma {:induction false} JoinSnoc(p: Path, name: Name)
    ensures Join(p + [name]) == if p == [] then name else Join(p) + (Ascii("/") + name)
  {
    assert Ascii("/") == [SLASH];
    if p != [] {
      JoinSnoc(p[1..], name);
      assert (p + [name])[1..] == p[1..] + [name];
      if |p| > 1 {
        assert p[0] + ([SLASH] + (Join(p[1..]) + ([SLASH] + name))) == (p[0] + ([SLASH] + Join(p[1..]))) + ([SLASH] + name);
      }
    }
  }

  /** A manifest or Rust source with no folder `target` or `.git` above it. */
  ghost predicate Hashed(p: Path) {
    p != [] && SourceName(p[|p| - 1]) && forall i :: 0 <= i < |p| - 1 ==> !SkippedFolder(p[i])
  }

  lemma HashedIsWanted(p: Path)
    ensures Hashed(p) <==> Wanted(p)
  {
    hide IsCacheInput, Pruned, SourceName, SkippedFolder;
    forall i | 0 <= i < |p| ensures (IsCacheInput(p[i]) <==> SourceName(p[i])) && (Pruned(p[i]) <==> SkippedFolder(p[i])) {
      InputNames(p[i]);
    }
  }

  // ---- one file replaced ----

  /** The tree after the regular file at `p` has been given another content. */
  function Replaced(l: Listing, p: Path, content: Option<Bytes>): Listing
    requires p != []
    decreases l, 1
  {
    if !l.Item? then l
    else if l.name != p[0] then Item(l.name, l.node, Replaced(l.rest, p, content))
    else Item(l.name, ReplacedNode(l.node, p[1..], content), l.rest)
  }

  function ReplacedNode(node: Node, p: Path, content: Option<Bytes>): Node
    decreases node, 0
  {
    match node
    case Regular(_) => if p == [] then Regular(content) else node
    case Folder(listing) => if p == [] then node else Folder(Replaced(listing, p, content))
    case Other => node
  }

  lemma {:induction false} ReplacedIsWellNamed(l: Listing, p: Path, content: Option<Bytes>)
    requires p != [] && WellNamed(l)
    ensures Names(Replaced(l, p, content)) == Names(l) && WellNamed(Replaced(l, p, content))
  {
    if l.Item? {
      if l.name != p[0] {
        ReplacedIsWellNamed(l.rest, p, content);
      } else if l.node.Folder? && |p| > 1 {
        ReplacedIsWellNamed(l.node.listing, p[1..], content);
      }
    }
  }

  /** Nothing but that one file has changed. */
  lemma {:induction false} LookupReplaced(l: Listing, p: Path, content: Option<Bytes>, r: Path)
    requires p != [] && r != []
    ensures var found := Lookup(l, r); var found' := Lookup(Replaced(l, p, content), r);
      && (found.None? ==> found'.None?)
      && (found.Some? && found.value.Folder? ==>
            var inside := found.value.listing;
            found' == Some(Folder(if r < p then Replaced(inside, p[|r|..], content) else inside)))
      && (found.Some? && !found.value.Folder? ==>
            found' == Some(if r == p && found.value.Regular? then Regular(content) else found.value))
  {
    if l.Item? {
      if l.name != r[0] {
        if l.name != p[0] {
          LookupReplaced(l.rest, p, content, r);
        }
      } else if |r| > 1 && l.node.Folder? && |p| > 1 && l.name == p[0] {
        LookupReplaced(l.node.listing, p[1..], content, r[1..]);
        assert r == [r[0]] + r[1..] && p == [p[0]] + p[1..];
        assert r < p <==> r[1..] < p[1..];
        if r < p {
          assert p[1..][|r| - 1..] == p[|r|..];
        }
      }
    }
  }

  /** The walk went to its end and every file it collected could be read. */
  ghost predicate ReadAll(fs: Option<seq<File>>) {
    fs.Some? && forall f :: f in fs.value ==> f.content.Some?
  }

  lemma ReadBoth(a: Option<seq<File>>, b: Option<seq<File>>)
    ensures ReadAll(Both(a, b)) <==> ReadAll(a) && ReadAll(b)
  {
    if ReadAll(Both(a, b)) {
      assert forall f :: f in a.value ==> f in Both(a, b).value;
      assert forall f :: f in b.value ==> f in Both(a, b).value;
    }
  }

  lemma {:induction false} ReplacedReads(l: Listing, p: Path, content: Bytes, at: Path)
    requires p != [] && ReadAll(Walk(l, at))
    ensures ReadAll(Walk(Replaced(l, p, Some(content)), at))
    decreases l, 1
  {
    hide ReadAll, Visit;
    if l.Item? {
      ReadBoth(Visit(l.name, l.node, at), Walk(l.rest, at));
      if l.name != p[0] {
        ReplacedReads(l.rest, p, content, at);
        ReadBoth(Visit(l.name, l.node, at), Walk(Replaced(l.rest, p, Some(content)), at));
      } else {
        ReplacedVisit(l.name, l.node, p[1..], content, at);
        ReadBoth(Visit(l.name, ReplacedNode(l.node, p[1..], Some(content)), at), Walk(l.rest, at));
      }
    }
  }

  lemma {:induction false} ReplacedVisit(name: Name, node: Node, p: Path, content: Bytes, at: Path)
    requires ReadAll(Visit(name, node, at))
    ensures ReadAll(Visit(name, ReplacedNode(node, p, Some(content)), at))
    decreases node, 0
  {
    if node.Folder? && p != [] && !Pruned(name) {
      ReplacedReads(node.listing, p, content, at + [name]);
    }
  }

  // ---- one file edited, wherever closure directories show it ----

  /** The directory's tree contains the place. */
  predicate Shows(d: Dir, place: Place) {
    match (d, place)
    case (Inside(dir), Within(path)) => dir < path
    case (Outside(dir, _), Beyond(path)) => dir < path
    case _ => false
  }

  function DirPath(d: Dir): Path { if d.Inside? then d.path else d.at }

  /** Where a directory's own tree has the place. */
  function Below(d: Dir, place: Place): (p: Path)
    requires Shows(d, place)
    ensures p != []
  {
    place.path[|DirPath(d)|..]
  }

  /** The directory hashes what is at the place. */
  ghost predicate Reaches(d: Dir, place: Place) { Shows(d, place) && Hashed(Below(d, place)) }

  function EditedRoot(root: Listing, place: Place, content: Bytes): Listing {
    if place.Within? && place.path != [] then Replaced(root, place.path, Some(content)) else root
  }

  function EditedDir(d: Dir, place: Place, content: Bytes): Dir {
    if d.Outside? && Shows(d, place) then d.(listing := Replaced(d.listing, Below(d, place), Some(content))) else d
  }

  function EditedDirs(dirs: seq<Dir>, place: Place, content: Bytes): seq<Dir> {
    seq(|dirs|, i requires 0 <= i < |dirs| => EditedDir(dirs[i], place, content))
  }

  /** The workspace after the file at `place` was given another content. */
  function Edited(w: Workspace, place: Place, content: Bytes): Workspace {
    w.(root := EditedRoot(w.root, place, content),
       closure := if w.closure.Some? then Some(EditedDirs(w.closure.value, place, content)) else None)
  }

  /** Every tree that contains the place has a regular file with this content there. */
  ghost predicate HoldsAt(w: Workspace, place: Place, content: Bytes) {
    match place
    case Within(path) => path != [] && Lookup(w.root, path) == Some(Regular(Some(content)))
    case Beyond(_) => w.closure.Some? ==> forall i :: 0 <= i < |w.closure.value| && Shows(w.closure.value[i], place) ==>
      DirHoldsAt(w.closure.value[i], place, content)
  }

  predicate DirHoldsAt(d: Dir, place: Place, content: Bytes)
    requires Shows(d, place)
  {
    d.Outside? ==> Lookup(d.listing, Below(d, place)) == Some(Regular(Some(content)))
  }

  /** A directory lists what it listed, with the file replaced where its tree contains it. */
  lemma ListingAfter(w: Workspace, d: Dir, place: Place, was: Bytes, content: Bytes)
    requires WellNamed(w.root) && HoldsAt(w, place, was) && (Shows(d, place) ==> DirHoldsAt(d, place, was))
    requires ListingOf(w.root, d).Some?
    ensures var l := ListingOf(w.root, d).value;
      && ListingOf(EditedRoot(w.root, place, content), EditedDir(d, place, content))
         == Some(if Shows(d, place) then Replaced(l, Below(d, place), Some(content)) else l)
      && (Shows(d, place) ==> Lookup(l, Below(d, place)) == Some(Regular(Some(was))))
  {
    hide WellNamed;
    if d.Inside? && place.Within? {
      if d.path != [] {
        LookupReplaced(w.root, place.path, Some(content), d.path);
      }
      if Shows(d, place) {
        DirListing(w.root, d);
        assert d.path + Below(d, place) == place.path;
      }
    }
  }

  /** The content a walk of the listing collects below it at `rest`. */
  function Spotted(l: Listing, rest: Path): Option<Option<Bytes>> {
    if !Wanted(rest) then None
    else match Lookup(l, rest) case Some(Regular(content)) => Some(content) case _ => None
  }

  lemma SightingSpots(root: Listing, d: Dir, path: Path)
    requires ListingOf(root, d).Some?
    ensures Sighting(root, d, path)
         == if KeyRoot(d) < path then Spotted(ListingOf(root, d).value, path[|KeyRoot(d)|..]) else None
  {
    hide ListingOf, Lookup, Wanted;
  }

  lemma SpottedAfter(l: Listing, p: Path, was: Bytes, content: Bytes, rest: Path)
    requires p != [] && Lookup(l, p) == Some(Regular(Some(was)))
    ensures var s, s' := Spotted(l, rest), Spotted(Replaced(l, p, Some(content)), rest);
      if rest == p && Hashed(p) then s == Some(Some(was)) && s' == Some(Some(content)) else s' == s
  {
    hide Replaced, Lookup, Wanted, Hashed;
    HashedIsWanted(p);
    WantedIsSome(rest);
    if rest != [] {
      LookupReplaced(l, p, Some(content), rest);
    }
  }

  lemma WantedIsSome(p: Path)
    ensures Wanted(p) ==> p != []
  {}

  /** What the directory keys under a path changes only under the file's own key path, and only if the file is hashed. */
  lemma SightingAfter(w: Workspace, d: Dir, place: Place, was: Bytes, content: Bytes, path: Path)
    requires WellNamed(w.root) && HoldsAt(w, place, was) && (Shows(d, place) ==> DirHoldsAt(d, place, was))
    requires ListingOf(w.root, d).Some?
    ensures var root', d' := EditedRoot(w.root, place, content), EditedDir(d, place, content);
      var s, s' := Sighting(w.root, d, path), Sighting(root', d', path);
      if Reaches(d, place) && path == KeyRoot(d) + Below(d, place) then s == Some(Some(was)) && s' == Some(Some(content))
      else s' == s
  {
    ListingAfter(w, d, place, was, content);
    var l, root', d' := ListingOf(w.root, d).value, EditedRoot(w.root, place, content), EditedDir(d, place, content);
    var top := KeyRoot(d);
    assert KeyRoot(d') == top;
    hide HoldsAt, DirHoldsAt, ListingOf, EditedRoot, EditedDir, WellNamed, Replaced, Lookup, Hashed, Spotted, Sighting, KeyRoot;
    SightingSpots(w.root, d, path);
    SightingSpots(root', d', path);
    if Shows(d, place) {
      var p := Below(d, place);
      hide Shows, Below;
      if top < path {
        var rest := path[|top|..];
        assert path == top + rest;
        assert path == top + p ==> rest == p by { assert (top + p)[|top|..] == p; }
        SpottedAfter(l, p, was, content, rest);
      }
    }
  }

  // ---- the closure ----

  /** Directory by directory, the same number of files under the path. */
  ghost predicate SameShape(root: Listing, dirs: seq<Dir>, root': Listing, dirs': seq<Dir>, path: Path) {
    |dirs| == |dirs'| &&
    forall i :: 0 <= i < |dirs| ==> (Sighting(root, dirs[i], path).Some? <==> Sighting(root', dirs'[i], path).Some?)
  }

  /** Then one directory that sees another content is enough for other sightings. */
  lemma {:induction false} SightingsApart(root: Listing, dirs: seq<Dir>, root': Listing, dirs': seq<Dir>, path: Path, i: nat)
    requires SameShape(root, dirs, root', dirs', path)
    requires i < |dirs| && Sighting(root, dirs[i], path) != Sighting(root', dirs'[i], path)
    ensures Sightings(root, dirs, path) != Sightings(root', dirs', path)
  {
    hide Sighting;
    var n := |dirs| - 1;
    var s, s' := Sightings(root, dirs[..n], path), Sightings(root', dirs'[..n], path);
    SightingsLength(root, dirs[..n], root', dirs'[..n], path);
    if i < n {
      SightingsApart(root, dirs[..n], root', dirs'[..n], path, i);
    }
    var t, t' := Sees(Sighting(root, dirs[n], path)), Sees(Sighting(root', dirs'[n], path));
    assert s + t == s' + t' ==> s == s' && t == t' by {
      assert (s + t)[..|s|] == s && (s' + t')[..|s|] == s';
      assert (s + t)[|s|..] == t && (s' + t')[|s|..] == t';
    }
  }

  lemma {:induction false} SightingsLength(root: Listing, dirs: seq<Dir>, root': Listing, dirs': seq<Dir>, path: Path)
    requires SameShape(root, dirs, root', dirs', path)
    ensures |Sightings(root, dirs, path)| == |Sightings(root', dirs', path)|
  {
    hide Sighting;
    if dirs != [] {
      SightingsLength(root, dirs[..|dirs| - 1], root', dirs'[..|dirs| - 1], path);
    }
  }

  lemma {:induction false} SightingsAlike(root: Listing, dirs: seq<Dir>, root': Listing, dirs': seq<Dir>, path: Path)
    requires |dirs| == |dirs'|
    requires forall i :: 0 <= i < |dirs| ==> Sighting(root, dirs[i], path) == Sighting(root', dirs'[i], path)
    ensures Sightings(root, dirs, path) == Sightings(root', dirs', path)
  {
    hide Sighting;
    if dirs != [] {
      SightingsAlike(root, dirs[..|dirs| - 1], root', dirs'[..|dirs| - 1], path);
    }
  }

  lemma {:induction false} CollectReads(root: Listing, dirs: seq<Dir>)
    ensures ReadAll(Collect(root, dirs)) <==> forall i :: 0 <= i < |dirs| ==> ReadAll(WalkOf(root, dirs[i]))
  {
    hide ReadAll, WalkOf;
    if dirs == [] {
      NothingToRead(root);
    } else {
      var init, last := dirs[..|dirs| - 1], dirs[|dirs| - 1];
      CollectReads(root, init);
      ReadBoth(Collect(root, init), WalkOf(root, last));
      assert forall i :: 0 <= i < |init| ==> dirs[i] == init[i];
    }
  }

  lemma NothingToRead(root: Listing)
    ensures ReadAll(Collect(root, []))
  {}

  lemma SortReads(es: seq<Entry>)
    ensures AllRead(SortByPath(es)) <==> AllRead(es)
  {
    SortSorts(es);
    var sorted := SortByPath(es);
    hide SortByPath;
    forall e ensures e in es <==> e in sorted {
      assert e in multiset(es) <==> e in multiset(sorted);
    }
    forall i | 0 <= i < |es| ensures es[i] in sorted {
      assert es[i] in es;
    }
    forall i | 0 <= i < |sorted| ensures sorted[i] in es {
      assert sorted[i] in sorted;
    }
  }

  lemma KeyedReads(fs: seq<File>)
    ensures AllRead(Keyed(fs)) <==> ReadAll(Some(fs))
  {
    hide Keyed;
    if AllRead(Keyed(fs)) {
      forall f | f in fs ensures f.content.Some? {
        var i :| 0 <= i < |fs| && fs[i] == f;
        assert Keyed(fs)[i] == KeyOf(f);
      }
    }
  }

  /** A workspace has a key exactly when every closure directory lists to its end and every collected file is read. */
  lemma HasKeyIff(w: Workspace, package: Bytes, generatable: bool)
    ensures KeyPreimage(w, package, generatable).Some? <==> w.closure.Some? && ReadAll(Collect(w.root, w.closure.value))
  {
    hide Collect, Preimage, AllRead, SortByPath, Keyed;
    if w.closure.Some? && Collect(w.root, w.closure.value).Some? {
      var fs := Collect(w.root, w.closure.value).value;
      KeyedReads(fs);
      SortReads(Keyed(fs));
    }
  }

  // ---- the law ----

  /** The closure directories' trees hold the file, and each directory could be listed. */
  ghost predicate Editable(w: Workspace, place: Place, was: Bytes) {
    && WellFormed(w) && w.closure.Some? && HoldsAt(w, place, was)
    && forall i :: 0 <= i < |w.closure.value| ==> ReadAll(WalkOf(w.root, w.closure.value[i]))
  }

  lemma DirIsEditable(w: Workspace, place: Place, was: Bytes, i: nat)
    requires Editable(w, place, was) && i < |w.closure.value|
    ensures var d := w.closure.value[i];
      && WellNamed(w.root) && (d.Outside? ==> WellNamed(d.listing)) && HoldsAt(w, place, was)
      && (Shows(d, place) ==> DirHoldsAt(d, place, was))
      && ListingOf(w.root, d).Some? && ReadAll(Walk(ListingOf(w.root, d).value, KeyRoot(d)))
  {
    hide WellNamed, Walk;
  }

  lemma EditedReads(w: Workspace, place: Place, was: Bytes, content: Bytes)
    requires Editable(w, place, was)
    ensures ReadAll(Collect(Edited(w, place, content).root, Edited(w, place, content).closure.value))
  {
    var dirs, w' := w.closure.value, Edited(w, place, content);
    hide Collect, ReadAll;
    forall i | 0 <= i < |dirs| ensures ReadAll(WalkOf(w'.root, w'.closure.value[i])) {
      var d := dirs[i];
      DirIsEditable(w, place, was, i);
      hide Editable, WellNamed, HoldsAt, DirHoldsAt, Walk, Replaced;
      ListingAfter(w, d, place, was, content);
      if Shows(d, place) {
        ReplacedReads(ListingOf(w.root, d).value, Below(d, place), content, KeyRoot(d));
      }
    }
    CollectReads(w'.root, w'.closure.value);
  }

  lemma EditedIsWellFormed(w: Workspace, place: Place, content: Bytes)
    requires WellFormed(w)
    ensures WellFormed(Edited(w, place, content))
  {
    hide WellNamed, Replaced;
    if place.Within? && place.path != [] {
      ReplacedIsWellNamed(w.root, place.path, Some(content));
    }
    if w.closure.Some? {
      forall i | 0 <= i < |w.closure.value| && EditedDir(w.closure.value[i], place, content).Outside?
        ensures WellNamed(EditedDir(w.closure.value[i], place, content).listing)
      {
        var d := w.closure.value[i];
        if Shows(d, place) {
          ReplacedIsWellNamed(d.listing, Below(d, place), Some(content));
        }
      }
    }
  }

  ghost predicate SomeReaches(w: Workspace, place: Place)
    requires w.closure.Some?
  {
    exists i :: 0 <= i < |w.closure.value| && Reaches(w.closure.value[i], place)
  }

  lemma EditSighting(w: Workspace, place: Place, was: Bytes, content: Bytes, i: nat, path: Path)
    requires Editable(w, place, was) && was != content && i < |w.closure.value|
    ensures var d, w' := w.closure.value[i], Edited(w, place, content);
      var s, s' := Sighting(w.root, d, path), Sighting(w'.root, w'.closure.value[i], path);
      (s.Some? <==> s'.Some?) && (s != s' <==> Reaches(d, place) && path == KeyRoot(d) + Below(d, place))
  {
    hide WellNamed, Sighting, Reaches, DirHoldsAt, HoldsAt, EditedRoot, EditedDir, Below, KeyRoot, ListingOf, Walk;
    DirIsEditable(w, place, was, i);
    SightingAfter(w, w.closure.value[i], place, was, content, path);
  }

  lemma EditSightings(w: Workspace, place: Place, was: Bytes, content: Bytes)
    requires Editable(w, place, was) && was != content
    ensures SameSightings(w, Edited(w, place, content)) <==> !SomeReaches(w, place)
  {
    var dirs, w' := w.closure.value, Edited(w, place, content);
    hide Sightings, Sighting, Reaches, Editable, EditedRoot, EditedDir, Below, KeyRoot;
    forall i: nat, path | i < |dirs|
      ensures Sighting(w.root, dirs[i], path).Some? <==> Sighting(w'.root, w'.closure.value[i], path).Some?
      ensures Sighting(w.root, dirs[i], path) != Sighting(w'.root, w'.closure.value[i], path)
        <==> Reaches(dirs[i], place) && path == KeyRoot(dirs[i]) + Below(dirs[i], place)
    {
      EditSighting(w, place, was, content, i, path);
    }
    if i :| 0 <= i < |dirs| && Reaches(dirs[i], place) {
      var path := KeyRoot(dirs[i]) + Below(dirs[i], place);
      SightingsApart(w.root, dirs, w'.root, w'.closure.value, path, i);
    } else {
      forall path ensures Sightings(w.root, dirs, path) == Sightings(w'.root, w'.closure.value, path) {
        SightingsAlike(w.root, dirs, w'.root, w'.closure.value, path);
      }
    }
  }

  /** An edit no closure directory reaches leaves the key, whatever its size. */
  lemma UnreachedEdit(w: Workspace, place: Place, was: Bytes, content: Bytes, package: Bytes, generatable: bool)
    requires WellFormed(w) && HoldsAt(w, place, was) && was != content
    requires KeyPreimage(w, package, generatable).Some?
    requires forall i :: 0 <= i < |w.closure.value| ==> !Reaches(w.closure.value[i], place)
    ensures KeyPreimage(Edited(w, place, content), package, generatable) == KeyPreimage(w, package, generatable)
  {
    var w' := Edited(w, place, content);
    HasKeyIff(w, package, generatable);
    CollectReads(w.root, w.closure.value);
    hide WellFormed, HoldsAt, KeyPreimage, Reaches, Collect, WalkOf, SameSightings, EditedRoot, EditedDir;
    EditedIsWellFormed(w, place, content);
    EditedReads(w, place, was, content);
    EditSightings(w, place, was, content);
    SameSightingsSameKey(w, w', package, generatable);
  }

  /** `src/target/mod.rs`. */
  function TargetModule(): Path { [Ascii("src"), Ascii("target"), Ascii("mod.rs")] }

  lemma TargetModuleIsSkipped(crate: Path)
    ensures !Reaches(Inside(crate), Within(crate + TargetModule()))
  {
    assert (crate + TargetModule())[|crate|..] == TargetModule();
    assert SkippedFolder(TargetModule()[1]);
  }

  /** Not only build artifacts are skipped: in a crate at `crate`, an edit of a Rust module `target` is not seen. */
  lemma TargetModuleIsUnseen(w: Workspace, crate: Path, was: Bytes, content: Bytes, package: Bytes, generatable: bool)
    requires WellFormed(w) && w.closure == Some([Inside(crate)]) && was != content
    requires HoldsAt(w, Within(crate + TargetModule()), was) && KeyPreimage(w, package, generatable).Some?
    ensures KeyPreimage(Edited(w, Within(crate + TargetModule()), content), package, generatable)
         == KeyPreimage(w, package, generatable)
  {
    hide HoldsAt, WellFormed, KeyPreimage, Reaches, Edited, TargetModule;
    TargetModuleIsSkipped(crate);
    UnreachedEdit(w, Within(crate + TargetModule()), was, content, package, generatable);
  }

  /**
   * Giving one file another content changes the key exactly when a closure directory has the file below it, the file is a
   * `Cargo.toml` or ends in `.rs`, and no folder `target` or `.git` is on the way down to it. There is a key in both cases.
   */
  lemma EditChangesKeyIff(w: Workspace, place: Place, was: Bytes, content: Bytes, package: Bytes, generatable: bool)
    requires WellFormed(w) && HoldsAt(w, place, was) && was != content
    requires KeyPreimage(w, package, generatable).Some?
    requires Fits(w, package) && Fits(Edited(w, place, content), package)
    ensures var w' := Edited(w, place, content);
      var key, key' := KeyPreimage(w, package, generatable), KeyPreimage(w', package, generatable);
      && key'.Some?
      && (key != key' <==> exists i :: 0 <= i < |w.closure.value| && Reaches(w.closure.value[i], place))
  {
    var w' := Edited(w, place, content);
    HasKeyIff(w, package, generatable);
    CollectReads(w.root, w.closure.value);
    hide WellFormed, HoldsAt, KeyPreimage, Fits, Reaches, Collect, WalkOf, ReadAll, SameSightings, EditedRoot, EditedDir;
    EditedIsWellFormed(w, place, content);
    EditedReads(w, place, was, content);
    HasKeyIff(w', package, generatable);
    EditSightings(w, place, was, content);
    KeyIsExactAnywhere(w, package, generatable, w', package, generatable);
  }
}
