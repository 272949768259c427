/** The bytes the describe cache hashes, and why nothing is lost in them: sorted entries under length-prefixed fields. */
module KeyFraming {
  import opened Wrappers
  import opened ByteStrings

  /** One source file: its key path, and its bytes unless it cannot be read. */
  datatype Entry = Entry(rel: Bytes, bytes: Option<Bytes>)

  const DESCRIBE_CACHE_VERSION := 1

  /** An in-memory length fits the eight-byte prefix. */
  predicate Sized(b: Bytes) { |b| < TWO_TO_THE_64 }

  predicate EntriesSized(es: seq<Entry>) {
    |es| < TWO_TO_THE_64 && forall i :: 0 <= i < |es| ==> Sized(es[i].rel) && (es[i].bytes.Some? ==> Sized(es[i].bytes.value))
  }

  predicate AllRead(es: seq<Entry>) {
    forall i :: 0 <= i < |es| ==> es[i].bytes.Some?
  }

  function Field(b: Bytes): Bytes { Le(|b|, 8) + b }

  function Fields(es: seq<Entry>): Bytes
    requires AllRead(es)
  {
    if es == [] then [] else Field(es[0].rel) + (Field(es[0].bytes.value) + Fields(es[1..]))
  }

  function LockFields(lockfile: Option<Bytes>): Bytes {
    match lockfile case Some(b) => [1] + Field(b) case None => [0]
  }

  function Flag(generatable: bool): Bytes { [if generatable then 1 else 0] }

  function Preimage(package: Bytes, generatable: bool, lockfile: Option<Bytes>, es: seq<Entry>): Bytes
    requires AllRead(es)
  {
    Le(DESCRIBE_CACHE_VERSION, 4) + (Field(package) + (Flag(generatable) + (LockFields(lockfile) + (Le(|es|, 8) + Fields(es)))))
  }

  lemma EightBytes(n: nat)
    requires n < 256
    ensures Le(n, 8) == [n as byte, 0, 0, 0, 0, 0, 0, 0]
    ensures Le(n, 4) == [n as byte, 0, 0, 0]
  {
    assert Le(0, 3) == [0, 0, 0] && Le(0, 7) == [0, 0, 0, 0, 0, 0, 0];
  }

  lemma FieldOfOne(b: byte)
    ensures Field([b]) == [1, 0, 0, 0, 0, 0, 0, 0, b]
  {
    EightBytes(1);
    hide Le;
  }

  lemma FieldsOfOne(e: Entry)
    requires e.bytes.Some?
    ensures Fields([e]) == Field(e.rel) + Field(e.bytes.value)
  {
    assert Fields([]) == [] && [e][1..] == [];
    assert Field(e.bytes.value) + [] == Field(e.bytes.value);
  }

  /** One small key, byte for byte: package `p`, generatable, lock file `l`, and the single file `f` holding `x`. */
  lemma PreimageExample(p: byte, l: byte, f: byte, x: byte)
    ensures Preimage([p], true, Some([l]), [Entry([f], Some([x]))]) ==
      [1, 0, 0, 0] + ([1, 0, 0, 0, 0, 0, 0, 0, p] + ([1] + (([1] + [1, 0, 0, 0, 0, 0, 0, 0, l]) + (
        [1, 0, 0, 0, 0, 0, 0, 0] + ([1, 0, 0, 0, 0, 0, 0, 0, f] + [1, 0, 0, 0, 0, 0, 0, 0, x])))))
  {
    EightBytes(1);
    FieldOfOne(p);
    FieldOfOne(l);
    FieldOfOne(f);
    FieldOfOne(x);
    FieldsOfOne(Entry([f], Some([x])));
    hide Le, Field, Fields;
  }

  // ---- framing loses nothing ----

  lemma HeadIsDetermined<T>(a: seq<T>, x: seq<T>, b: seq<T>, y: seq<T>)
    requires a + x == b + y && |a| == |b|
    ensures a == b && x == y
  {
    assert a == (a + x)[..|a|] && b == (b + y)[..|b|];
    assert x == (a + x)[|a|..] && y == (b + y)[|b|..];
  }

  /** The prefix tells where the field ends, whatever follows. */
  lemma FieldIsDetermined(a: Bytes, x: Bytes, b: Bytes, y: Bytes)
    requires Field(a) + x == Field(b) + y && Sized(a) && Sized(b)
    ensures a == b && x == y
  {
    assert Field(a) + x == Le(|a|, 8) + (a + x);
    assert Field(b) + y == Le(|b|, 8) + (b + y);
    HeadIsDetermined(Le(|a|, 8), a + x, Le(|b|, 8), b + y);
    Widths();
    LeRoundTrip(|a|, 8);
    LeRoundTrip(|b|, 8);
    HeadIsDetermined(a, x, b, y);
  }

  lemma {:induction false} FieldsAreDetermined(es: seq<Entry>, fs: seq<Entry>)
    requires AllRead(es) && AllRead(fs) && Fields(es) == Fields(fs) && |es| == |fs| && EntriesSized(es) && EntriesSized(fs)
    ensures es == fs
  {
    if es != [] {
      FieldIsDetermined(es[0].rel, Field(es[0].bytes.value) + Fields(es[1..]), fs[0].rel, Field(fs[0].bytes.value) + Fields(fs[1..]));
      FieldIsDetermined(es[0].bytes.value, Fields(es[1..]), fs[0].bytes.value, Fields(fs[1..]));
      FieldsAreDetermined(es[1..], fs[1..]);
      assert es == [es[0]] + es[1..] && fs == [fs[0]] + fs[1..];
    }
  }

  lemma LockTag(l: Option<Bytes>, x: Bytes)
    ensures (LockFields(l) + x)[0] == if l.Some? then 1 else 0
    ensures l.Some? ==> LockFields(l) + x == [1] + (Field(l.value) + x)
  {
    hide Field;
    if l.Some? {
      assert LockFields(l) + x == [1] + (Field(l.value) + x);
    }
  }

  lemma LockIsDetermined(a: Option<Bytes>, x: Bytes, b: Option<Bytes>, y: Bytes)
    requires LockFields(a) + x == LockFields(b) + y
    requires (a.Some? ==> Sized(a.value)) && (b.Some? ==> Sized(b.value))
    ensures a == b && x == y
  {
    hide Field;
    LockTag(a, x);
    LockTag(b, y);
    if a.Some? {
      hide LockFields;
      HeadIsDetermined([1], Field(a.value) + x, [1], Field(b.value) + y);
      FieldIsDetermined(a.value, x, b.value, y);
    } else {
      HeadIsDetermined(LockFields(a), x, LockFields(b), y);
    }
  }

  /** Two key preimages are equal exactly when every part is. */
  lemma PreimageIsExact(p: Bytes, g: bool, l: Option<Bytes>, es: seq<Entry>, p': Bytes, g': bool, l': Option<Bytes>, es': seq<Entry>)
    requires Sized(p) && Sized(p') && AllRead(es) && AllRead(es') && EntriesSized(es) && EntriesSized(es')
    requires (l.Some? ==> Sized(l.value)) && (l'.Some? ==> Sized(l'.value))
    ensures Preimage(p, g, l, es) == Preimage(p', g', l', es') <==> p == p' && g == g' && l == l' && es == es'
  {
    if Preimage(p, g, l, es) == Preimage(p', g', l', es') {
      hide Field, Fields, LockFields;
      var r4, r4' := Le(|es|, 8) + Fields(es), Le(|es'|, 8) + Fields(es');
      var r3, r3' := LockFields(l) + r4, LockFields(l') + r4';
      var r2, r2' := Flag(g) + r3, Flag(g') + r3';
      HeadIsDetermined(Le(DESCRIBE_CACHE_VERSION, 4), Field(p) + r2, Le(DESCRIBE_CACHE_VERSION, 4), Field(p') + r2');
      FieldIsDetermined(p, r2, p', r2');
      HeadIsDetermined(Flag(g), r3, Flag(g'), r3');
      LockIsDetermined(l, r4, l', r4');
      HeadIsDetermined(Le(|es|, 8), Fields(es), Le(|es'|, 8), Fields(es'));
      Widths();
      LeRoundTrip(|es|, 8);
      LeRoundTrip(|es'|, 8);
      FieldsAreDetermined(es, es');
    }
  }

  // ---- the order of the entries ----

  /** Byte order on paths. */
  predicate Leq(a: Bytes, b: Bytes) {
    a == [] || (b != [] && (a[0] < b[0] || (a[0] == b[0] && Leq(a[1..], b[1..]))))
  }

  lemma {:induction false} LeqTotal(a: Bytes, b: Bytes)
    ensures Leq(a, b) || Leq(b, a)
    ensures Leq(a, b) && Leq(b, a) ==> a == b
  {
    if a != [] && b != [] {
      LeqTotal(a[1..], b[1..]);
      assert a == [a[0]] + a[1..] && b == [b[0]] + b[1..];
    }
  }

  lemma {:induction false} LeqTransitive(a: Bytes, b: Bytes, c: Bytes)
    requires Leq(a, b) && Leq(b, c)
    ensures Leq(a, c)
  {
    if a != [] && a[0] == b[0] == c[0] {
      LeqTransitive(a[1..], b[1..], c[1..]);
    }
  }

  /** They agree up to `n`, and there `a` ends or has the smaller byte. */
  predicate BeforeFrom(a: Bytes, b: Bytes, n: int) {
    0 <= n <= |a| && n <= |b| && a[..n] == b[..n] && (n == |a| || (n < |b| && a[n] < b[n]))
  }

  /** One path is before another when it is a prefix of it, or smaller at the first byte where they differ. */
  lemma {:induction false} LeqIff(a: Bytes, b: Bytes)
    ensures Leq(a, b) <==> exists n :: BeforeFrom(a, b, n)
  {
    if a == [] {
      assert BeforeFrom(a, b, 0);
    } else if b == [] || a[0] != b[0] {
      if b != [] && a[0] < b[0] {
        assert BeforeFrom(a, b, 0);
      }
      forall n | 0 < n <= |a| && n <= |b| ensures a[..n] != b[..n] {
        assert a[..n][0] == a[0] && b[..n][0] == b[0];
      }
    } else {
      LeqIff(a[1..], b[1..]);
      if n :| BeforeFrom(a[1..], b[1..], n) {
        assert a[..n + 1] == [a[0]] + a[1..][..n] && b[..n + 1] == [b[0]] + b[1..][..n];
        assert BeforeFrom(a, b, n + 1);
      }
      if n :| BeforeFrom(a, b, n) {
        assert a[1..][..n - 1] == a[..n][1..] && b[1..][..n - 1] == b[..n][1..];
        assert BeforeFrom(a[1..], b[1..], n - 1);
      }
    }
  }

  predicate Ordered(es: seq<Entry>) {
    forall i, j :: 0 <= i < j < |es| ==> Leq(es[i].rel, es[j].rel)
  }

  /** Equal paths stay in their first order, as in a stable sort. */
  function Insert(e: Entry, es: seq<Entry>): seq<Entry> {
    if es == [] then [e]
    else if Leq(e.rel, es[0].rel) then [e] + es
    else [es[0]] + Insert(e, es[1..])
  }

  function SortByPath(es: seq<Entry>): seq<Entry> {
    if es == [] then [] else Insert(es[0], SortByPath(es[1..]))
  }

  lemma {:induction false} InsertKeeps(e: Entry, es: seq<Entry>)
    ensures multiset(Insert(e, es)) == multiset(es) + multiset{e}
  {
    if es != [] && !Leq(e.rel, es[0].rel) {
      InsertKeeps(e, es[1..]);
      assert es == [es[0]] + es[1..];
    }
  }

  lemma OrderedCons(e: Entry, es: seq<Entry>)
    requires Ordered(es) && forall i :: 0 <= i < |es| ==> Leq(e.rel, es[i].rel)
    ensures Ordered([e] + es)
  {
    hide Leq;
  }

  lemma {:induction false} InsertOrders(e: Entry, es: seq<Entry>)
    requires Ordered(es)
    ensures Ordered(Insert(e, es))
  {
    if es != [] {
      LeqTotal(e.rel, es[0].rel);
      hide Leq;
      if Leq(e.rel, es[0].rel) {
        forall i | 0 <= i < |es| ensures Leq(e.rel, es[i].rel) {
          if i > 0 {
            LeqTransitive(e.rel, es[0].rel, es[i].rel);
          }
        }
        OrderedCons(e, es);
      } else {
        var rest := Insert(e, es[1..]);
        InsertOrders(e, es[1..]);
        InsertKeeps(e, es[1..]);
        forall i | 0 <= i < |rest| ensures Leq(es[0].rel, rest[i].rel) {
          assert rest[i] in multiset(rest);
          assert rest[i] == e || rest[i] in es[1..];
        }
        OrderedCons(es[0], rest);
      }
    } else {
    }
  }

  lemma {:induction false} SortSorts(es: seq<Entry>)
    ensures Ordered(SortByPath(es)) && multiset(SortByPath(es)) == multiset(es)
  {
    if es != [] {
      hide Ordered;
      SortSorts(es[1..]);
      InsertOrders(es[0], SortByPath(es[1..]));
      InsertKeeps(es[0], SortByPath(es[1..]));
      assert es == [es[0]] + es[1..];
    } else {
    }
  }

  /** One path, one content. */
  predicate PathsDetermine(es: seq<Entry>) {
    forall i, j :: 0 <= i < |es| && 0 <= j < |es| && es[i].rel == es[j].rel ==> es[i] == es[j]
  }

  lemma FirstIsUnique(es: seq<Entry>, fs: seq<Entry>)
    requires Ordered(es) && Ordered(fs) && multiset(es) == multiset(fs) && PathsDetermine(es) && es != [] && fs != []
    ensures es[0] == fs[0]
  {
    assert fs[0] in multiset(es) && es[0] in multiset(fs);
    var i :| 0 <= i < |es| && es[i] == fs[0];
    var j :| 0 <= j < |fs| && fs[j] == es[0];
    LeqTotal(es[0].rel, es[0].rel);
    LeqTotal(es[0].rel, fs[0].rel);
    assert Leq(es[0].rel, fs[0].rel) && Leq(fs[0].rel, es[0].rel);
  }

  lemma RestKeeps(es: seq<Entry>)
    requires es != []
    ensures Ordered(es) ==> Ordered(es[1..])
    ensures PathsDetermine(es) ==> PathsDetermine(es[1..])
    ensures multiset(es[1..]) == multiset(es) - multiset{es[0]} && es == [es[0]] + es[1..]
  {
    hide Leq;
    assert es == [es[0]] + es[1..];
  }

  lemma {:induction false} OrderIsUnique(es: seq<Entry>, fs: seq<Entry>)
    requires Ordered(es) && Ordered(fs) && multiset(es) == multiset(fs) && PathsDetermine(es)
    ensures es == fs
  {
    assert |es| == |multiset(es)| == |multiset(fs)| == |fs|;
    if es != [] {
      FirstIsUnique(es, fs);
      hide Ordered, PathsDetermine;
      RestKeeps(es);
      RestKeeps(fs);
      OrderIsUnique(es[1..], fs[1..]);
    }
  }

  /** When a path determines its content, sorting forgets exactly the order the entries were found in. */
  lemma SortForgetsOrder(es: seq<Entry>, fs: seq<Entry>)
    requires PathsDetermine(es)
    ensures SortByPath(es) == SortByPath(fs) <==> multiset(es) == multiset(fs)
  {
    SortSorts(es);
    SortSorts(fs);
    if multiset(es) == multiset(fs) {
      var s := SortByPath(es);
      forall i, j | 0 <= i < |s| && 0 <= j < |s| && s[i].rel == s[j].rel ensures s[i] == s[j] {
        assert s[i] in multiset(s) && s[j] in multiset(s);
        assert s[i] in es && s[j] in es;
      }
      OrderIsUnique(SortByPath(es), SortByPath(fs));
    }
  }

  // ---- the order of entries with one path ----

  function At(es: seq<Entry>, rel: Bytes): seq<Entry> {
    if es == [] then [] else (if es[0].rel == rel then [es[0]] else []) + At(es[1..], rel)
  }

  lemma {:induction false} AtConcat(a: seq<Entry>, b: seq<Entry>, rel: Bytes)
    ensures At(a + b, rel) == At(a, rel) + At(b, rel)
  {
    if a == [] {
      assert a + b == b;
    } else {
      AtConcat(a[1..], b, rel);
      assert (a + b)[1..] == a[1..] + b;
      var first := if a[0].rel == rel then [a[0]] else [];
      hide At;
      assert first + (At(a[1..], rel) + At(b, rel)) == (first + At(a[1..], rel)) + At(b, rel);
    }
  }

  /** Under each path, the same entries in the same order. */
  ghost predicate SameByPath(es: seq<Entry>, fs: seq<Entry>) {
    forall rel :: At(es, rel) == At(fs, rel)
  }

  lemma AtCons(e: Entry, es: seq<Entry>, rel: Bytes)
    ensures At([e] + es, rel) == (if e.rel == rel then [e] else []) + At(es, rel)
  {
    assert ([e] + es)[1..] == es;
  }

  lemma {:induction false} InsertAt(e: Entry, es: seq<Entry>, rel: Bytes)
    ensures At(Insert(e, es), rel) == (if e.rel == rel then [e] else []) + At(es, rel)
  {
    hide Leq, At;
    if es == [] {
      assert [e] == [e] + [];
      AtCons(e, [], rel);
    } else if Leq(e.rel, es[0].rel) {
      AtCons(e, es, rel);
    } else {
      LeqTotal(e.rel, e.rel);
      InsertAt(e, es[1..], rel);
      AtCons(es[0], Insert(e, es[1..]), rel);
      AtCons(es[0], es[1..], rel);
      assert es == [es[0]] + es[1..];
    }
  }

  /** The sort is stable. */
  lemma {:induction false} SortIsStable(es: seq<Entry>, rel: Bytes)
    ensures At(SortByPath(es), rel) == At(es, rel)
  {
    if es != [] {
      SortIsStable(es[1..], rel);
      InsertAt(es[0], SortByPath(es[1..]), rel);
    }
  }

  lemma {:induction false} AtFirst(es: seq<Entry>, rel: Bytes)
    requires At(es, rel) != []
    ensures exists i :: 0 <= i < |es| && es[i].rel == rel
  {
    if es[0].rel != rel {
      AtFirst(es[1..], rel);
      var i :| 0 <= i < |es[1..]| && es[1..][i].rel == rel;
      assert es[i + 1].rel == rel;
    }
  }

  lemma FirstPathIsLeast(es: seq<Entry>, rel: Bytes)
    requires Ordered(es) && es != [] && At(es, rel) != []
    ensures Leq(es[0].rel, rel)
  {
    AtFirst(es, rel);
    var i :| 0 <= i < |es| && es[i].rel == rel;
    LeqTotal(rel, rel);
  }

  lemma EmptyTogether(es: seq<Entry>, fs: seq<Entry>)
    requires SameByPath(es, fs)
    ensures es == [] <==> fs == []
  {
    assert es != [] ==> At(es, es[0].rel) != [];
    assert fs != [] ==> At(fs, fs[0].rel) != [];
  }

  lemma AtHead(es: seq<Entry>)
    requires es != []
    ensures At(es, es[0].rel) == [es[0]] + At(es[1..], es[0].rel)
  {}

  /** Ordered entries are determined by what they hold under each path, in order. */
  lemma {:induction false} PathsDecideOrder(es: seq<Entry>, fs: seq<Entry>)
    requires Ordered(es) && Ordered(fs) && SameByPath(es, fs)
    ensures es == fs
  {
    EmptyTogether(es, fs);
    if es != [] {
      SameHead(es, fs);
      forall rel ensures At(es[1..], rel) == At(fs[1..], rel) {
        assert At(es, rel) == At(fs, rel);
        SameTail(es, fs, rel);
      }
      RestKeeps(es);
      RestKeeps(fs);
      hide Ordered, At;
      PathsDecideOrder(es[1..], fs[1..]);
    }
  }

  lemma SameHead(es: seq<Entry>, fs: seq<Entry>)
    requires Ordered(es) && Ordered(fs) && es != [] && fs != []
    requires SameByPath(es, fs)
    ensures es[0] == fs[0]
  {
    hide Ordered, Leq;
    AtHead(es);
    AtHead(fs);
    FirstPathIsLeast(es, fs[0].rel);
    FirstPathIsLeast(fs, es[0].rel);
    LeqTotal(es[0].rel, fs[0].rel);
    assert At(es, es[0].rel)[0] == At(fs, es[0].rel)[0];
  }

  lemma SameTail(es: seq<Entry>, fs: seq<Entry>, rel: Bytes)
    requires es != [] && fs != [] && es[0] == fs[0] && At(es, rel) == At(fs, rel)
    ensures At(es[1..], rel) == At(fs[1..], rel)
  {
    HeadIsDetermined(if es[0].rel == rel then [es[0]] else [], At(es[1..], rel), if es[0].rel == rel then [es[0]] else [], At(fs[1..], rel));
  }

  lemma SortKeepsByPath(es: seq<Entry>, fs: seq<Entry>)
    ensures SameByPath(SortByPath(es), SortByPath(fs)) <==> SameByPath(es, fs)
  {
    forall rel ensures At(SortByPath(es), rel) == At(es, rel) && At(SortByPath(fs), rel) == At(fs, rel) {
      SortIsStable(es, rel);
      SortIsStable(fs, rel);
    }
    hide At, SortByPath;
    if SameByPath(SortByPath(es), SortByPath(fs)) {
      forall rel ensures At(es, rel) == At(fs, rel) {
        assert At(SortByPath(es), rel) == At(SortByPath(fs), rel);
      }
    }
    if SameByPath(es, fs) {
      forall rel ensures At(SortByPath(es), rel) == At(SortByPath(fs), rel) {
        assert At(es, rel) == At(fs, rel);
      }
    }
  }

  /** For any entries at all: sorted lists agree exactly when, under each path, the lists hold the same in the same order. */
  lemma SortKeepsPathOrder(es: seq<Entry>, fs: seq<Entry>)
    ensures SortByPath(es) == SortByPath(fs) <==> SameByPath(es, fs)
  {
    SortSorts(es);
    SortSorts(fs);
    SortKeepsByPath(es, fs);
    hide SortByPath, Ordered, At;
    if SameByPath(es, fs) {
      PathsDecideOrder(SortByPath(es), SortByPath(fs));
    }
  }
}
