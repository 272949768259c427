/** Edits of a tree that its walk cannot see: entries no walk descends to or collects, and another listing order. */
module SourceEdits {
  import opened Wrappers
  import opened SourceTree

  /** The tree without pruned folders, files that are no cache input, other entries, and folders this leaves empty. */
  function Trim(l: Listing): Listing
    decreases l, 1
  {
    if !l.Item? then l
    else
      var node := TrimNode(l.name, l.node);
      if node.None? then Trim(l.rest) else Item(l.name, node.value, Trim(l.rest))
  }

  function TrimNode(name: Name, node: Node): Option<Node>
    decreases node, 0
  {
    match node
    case Folder(listing) => if Pruned(name) || Trim(listing) == End then None else Some(Folder(Trim(listing)))
    case Regular(_) => if IsCacheInput(name) then Some(node) else None
    case Other => None
  }

  /** The walk sees the trimmed tree: what is dropped is neither collected nor able to make it fail. */
  lemma {:induction false} TrimKeepsWalk(l: Listing, at: Path)
    ensures Walk(Trim(l), at) == Walk(l, at)
    decreases l, 1
  {
    if l.Item? {
      TrimKeepsWalk(l.rest, at);
      TrimKeepsVisit(l.name, l.node, at);
      var rest := Walk(l.rest, at);
      if rest.Some? {
        assert [] + rest.value == rest.value;
      }
    }
  }

  lemma {:induction false} TrimKeepsVisit(name: Name, node: Node, at: Path)
    ensures var trimmed := TrimNode(name, node);
      Visit(name, node, at) == if trimmed.Some? then Visit(name, trimmed.value, at) else Some([])
    decreases node, 0
  {
    if node.Folder? && !Pruned(name) {
      TrimKeepsWalk(node.listing, at + [name]);
    }
  }

  // ---- listing order ----

  /** The entry a name first denotes, and the listing without it. */
  function NodeAt(l: Listing, name: Name): Node
    requires name in Names(l)
  {
    if l.name == name then l.node else NodeAt(l.rest, name)
  }

  function Without(l: Listing, name: Name): Listing
    requires name in Names(l)
  {
    if l.name == name then l.rest else Item(l.name, l.node, Without(l.rest, name))
  }

  /** The same entries, listed in any order at every level. */
  predicate Reordered(l: Listing, l': Listing)
    decreases l, 1
  {
    if !l.Item? then l' == l
    else l.name in Names(l') && NodeReordered(l.node, NodeAt(l', l.name)) && Reordered(l.rest, Without(l', l.name))
  }

  predicate NodeReordered(node: Node, node': Node)
    decreases node, 0
  {
    if node.Folder? && node'.Folder? then Reordered(node.listing, node'.listing) else node == node'
  }

  lemma {:induction false} ReorderedItself(l: Listing)
    ensures Reordered(l, l)
    decreases l, 1
  {
    if l.Item? {
      if l.node.Folder? {
        ReorderedItself(l.node.listing);
      }
      ReorderedItself(l.rest);
    }
  }

  /** Two walks fail together, or collect every file equally often. */
  ghost predicate SameFiles(a: Option<seq<File>>, b: Option<seq<File>>) {
    (a.Some? <==> b.Some?) && (a.Some? ==> multiset(a.value) == multiset(b.value))
  }

  lemma SameBoth(a: Option<seq<File>>, b: Option<seq<File>>, a': Option<seq<File>>, b': Option<seq<File>>)
    requires SameFiles(a, a') && SameFiles(b, b')
    ensures SameFiles(Both(a, b), Both(a', b'))
  {}

  lemma SwapFirst(a: Option<seq<File>>, b: Option<seq<File>>, c: Option<seq<File>>)
    ensures SameFiles(Both(a, Both(b, c)), Both(b, Both(a, c)))
  {}

  lemma {:induction false} TakeOut(l: Listing, name: Name, at: Path)
    requires name in Names(l)
    ensures SameFiles(Walk(l, at), Both(Visit(name, NodeAt(l, name), at), Walk(Without(l, name), at)))
  {
    if l.name != name {
      TakeOut(l.rest, name, at);
      var first, taken := Visit(l.name, l.node, at), Visit(name, NodeAt(l.rest, name), at);
      var others := Walk(Without(l.rest, name), at);
      hide Visit;
      assert Walk(l, at) == Both(first, Walk(l.rest, at));
      assert Walk(Without(l, name), at) == Both(first, others);
      hide Walk;
      SameBoth(first, Walk(l.rest, at), first, Both(taken, others));
      SwapFirst(first, taken, others);
    }
  }

  /** Another listing order, at any level, leaves what is collected as it was. */
  lemma {:induction false} ReorderKeepsWalk(l: Listing, l': Listing, at: Path)
    requires Reordered(l, l')
    ensures SameFiles(Walk(l, at), Walk(l', at))
    decreases l, 1
  {
    if l.Item? {
      var here, there := Visit(l.name, l.node, at), Visit(l.name, NodeAt(l', l.name), at);
      var rest, rest' := Walk(l.rest, at), Walk(Without(l', l.name), at);
      ReorderKeepsVisit(l.name, l.node, NodeAt(l', l.name), at);
      ReorderKeepsWalk(l.rest, Without(l', l.name), at);
      TakeOut(l', l.name, at);
      hide Visit;
      assert Walk(l, at) == Both(here, rest);
      hide Walk;
      SameBoth(here, rest, there, rest');
    }
  }

  lemma {:induction false} ReorderKeepsVisit(name: Name, node: Node, node': Node, at: Path)
    requires NodeReordered(node, node')
    ensures SameFiles(Visit(name, node, at), Visit(name, node', at))
    decreases node, 0
  {
    if node.Folder? && node'.Folder? && !Pruned(name) {
      ReorderKeepsWalk(node.listing, node'.listing, at + [name]);
    }
  }

  // ---- edits of a closure ----

  /** An edit of one closure directory that touches only what no walk sees. */
  predicate DirUntouched(root: Listing, d: Dir, root': Listing, d': Dir) {
    && (if d.Inside? then d' == d else d'.Outside? && d'.at == d.at)
    && match (ListingOf(root, d), ListingOf(root', d'))
       case (Some(l), Some(l')) => Reordered(Trim(l), Trim(l'))
       case (None, None) => true
       case _ => false
  }

  lemma UntouchedWalk(root: Listing, d: Dir, root': Listing, d': Dir)
    requires DirUntouched(root, d, root', d')
    ensures SameFiles(WalkOf(root, d), WalkOf(root', d'))
  {
    hide Trim, Reordered, Walk;
    if ListingOf(root, d).Some? {
      var l, l' := ListingOf(root, d).value, ListingOf(root', d').value;
      TrimKeepsWalk(l, KeyRoot(d));
      TrimKeepsWalk(l', KeyRoot(d));
      ReorderKeepsWalk(Trim(l), Trim(l'), KeyRoot(d));
    }
  }

  predicate Untouched(root: Listing, dirs: seq<Dir>, root': Listing, dirs': seq<Dir>) {
    |dirs| == |dirs'| && forall i :: 0 <= i < |dirs| ==> DirUntouched(root, dirs[i], root', dirs'[i])
  }

  lemma {:induction false} UntouchedCollects(root: Listing, dirs: seq<Dir>, root': Listing, dirs': seq<Dir>)
    requires Untouched(root, dirs, root', dirs')
    ensures Collect(root, dirs).Some? <==> Collect(root', dirs').Some?
  {
    hide DirUntouched, WalkOf;
    if dirs != [] {
      UntouchedCollects(root, dirs[..|dirs| - 1], root', dirs'[..|dirs| - 1]);
      UntouchedWalk(root, dirs[|dirs| - 1], root', dirs'[|dirs| - 1]);
    }
  }

  lemma UntouchedSighting(root: Listing, d: Dir, root': Listing, d': Dir, path: Path)
    requires WellNamed(root) && WellNamed(root') && (d.Outside? ==> WellNamed(d.listing)) && (d'.Outside? ==> WellNamed(d'.listing))
    requires DirUntouched(root, d, root', d') && WalkOf(root, d).Some?
    ensures Sighting(root, d, path) == Sighting(root', d', path)
  {
    hide Trim, Reordered, Walk, WellNamed, Lookup, Wanted;
    UntouchedWalk(root, d, root', d');
    var a, b := Sighting(root, d, path), Sighting(root', d', path);
    hide Sighting, WalkOf, DirUntouched;
    if a.Some? {
      DirSees(root, d, path, a.value);
      DirSees(root', d', path, a.value);
    } else if b.Some? {
      DirSees(root, d, path, b.value);
      DirSees(root', d', path, b.value);
    }
  }

  lemma {:induction false} UntouchedSightings(root: Listing, dirs: seq<Dir>, root': Listing, dirs': seq<Dir>, path: Path)
    requires WellNamed(root) && WellNamed(root') && OutsideWellNamed(dirs) && OutsideWellNamed(dirs')
    requires Untouched(root, dirs, root', dirs') && Collect(root, dirs).Some?
    ensures Sightings(root, dirs, path) == Sightings(root', dirs', path)
  {
    hide DirUntouched, WalkOf, Sighting, WellNamed;
    if dirs != [] {
      UntouchedSightings(root, dirs[..|dirs| - 1], root', dirs'[..|dirs| - 1], path);
      UntouchedSighting(root, dirs[|dirs| - 1], root', dirs'[|dirs| - 1], path);
    }
  }
}
