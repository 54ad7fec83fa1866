/** End to end for unregister_package: whether sync_clobbers, run on the restore list after
    the files of the package are gone, shows the new view (crates/path_resolver/src/lib.rs). */
module UnregisterSync {
  import opened Orders
  import opened PathTrie
  import opened ClobberView
  import opened ResolverState
  import opened TrieWalks
  import opened PathResolution
  import opened InsertedView
  import opened ClobberDisk
  import opened ClobberSync

  /** The visible files of the other packages. */
  ghost function Kept(n: Node, packages: seq<Package>, g: Package): Files {
    iset p: Path, c: Package | Visible(n, packages, p, c) && c != g :: (p, c)
  }

  ghost function NewView(n: Node, packages: seq<Package>, g: Package): Files {
    View(Removed(n, g), Without(packages, g))
  }

  /** from is what unregistering g returns. */
  ghost predicate RestoreList(n: Node, packages: seq<Package>, g: Package, from: Found) {
    ParentsFirst(from) && forall p, c :: (p, c) in from <==> FallsBack(n, packages, g, p, c)
  }

  /** A hidden file of the list surfaces exactly where nothing stands in the target. */
  ghost predicate FitsTarget(n: Node, packages: seq<Package>, g: Package, t: Tree, from: Found) {
    forall p, c :: (p, c) in from && !Visible(n, packages, p, c) ==>
      (Surfaces(n, packages, g, p, c) <==> !Exists(t, p))
  }

  // ---------------------------------------------------------------- The list and the views

  lemma ListedIsOther(n: Node, packages: seq<Package>, g: Package, from: Found, p: Path, c: Package)
    requires Invariant(n, packages) && g in packages && RestoreList(n, packages, g, from) && (p, c) in from
    ensures c != g && c in Owners(Removed(n, g), p)
    ensures (p, c) in Kept(n, packages, g) <==> Visible(n, packages, p, c)
    ensures (p, c) in NewView(n, packages, g) <==> Surfaces(n, packages, g, p, c)
  {
    var before := WithoutSplits(packages, g);
    RemovedAt(n, g, p);
    RestoresExactly(n, packages, g, p, c);
    RestoredVisibleIff(n, packages, g, p, c);
  }

  lemma NewlyVisibleIsListed(n: Node, packages: seq<Package>, g: Package, from: Found, p: Path, c: Package)
    requires Invariant(n, packages) && g in packages && RestoreList(n, packages, g, from)
    requires (p, c) in NewView(n, packages, g)
    ensures (p, c) in Kept(n, packages, g) || ((p, c) in from && !Visible(n, packages, p, c))
  {
    RemoveKeepsInvariant(n, packages, g);
    VisibleIffTopmost(Removed(n, g), Without(packages, g), p, c);
    RemovedAt(n, g, p);
    if !Visible(n, packages, p, c) {
      NewlyVisibleIsRestored(n, packages, g, p, c);
      RestoresExactly(n, packages, g, p, c);
    }
  }

  /** A visible file of another package keeps being the best one at its place; only a file
      that surfaces above it can hide it. */
  lemma {:induction false} KeptUnlessShadowed(n: Node, packages: seq<Package>, g: Package, from: Found, p: Path, c: Package)
    requires Invariant(n, packages) && g in packages && RestoreList(n, packages, g, from)
    requires (p, c) in Kept(n, packages, g) && (p, c) !in NewView(n, packages, g)
    ensures exists q, h :: q < p && (q, h) in from && !Visible(n, packages, q, h) && Surfaces(n, packages, g, q, h)
  {
    var m, rest := Removed(n, g), Without(packages, g);
    RemoveKeepsInvariant(n, packages, g);
    VisibleIffTopmost(n, packages, p, c);
    RemovedAt(n, g, p);
    FirstAfterRemoval(packages, g, Tags(n, p));
    assert LocalFile(m, rest, p, c);
    var q, h := LocalFileShadow(m, rest, p, c);
    VisibleIffTopmost(m, rest, q, h);
    assert q != p;
    NewlyVisibleIsListed(n, packages, g, from, q, h);
    if Visible(n, packages, q, h) { VisibleAntichain(n, packages, p, c, q, h); }
    ListedIsOther(n, packages, g, from, q, h);
  }

  // ---------------------------------------------------------------- It fits

  lemma {:induction false} KeptStaysVisible(d: Disk, n: Node, packages: seq<Package>, g: Package, content: Contents, from: Found, p: Path, c: Package)
    requires Invariant(n, packages) && g in packages && RestoreList(n, packages, g, from)
    requires Holds(d, Removed(n, g), Kept(n, packages, g), content) && FitsTarget(n, packages, g, d.target, from)
    requires (p, c) in Kept(n, packages, g)
    ensures (p, c) in NewView(n, packages, g)
  {
    assert p in d.target.files;
    forall q, h | q < p && (q, h) in from && !Visible(n, packages, q, h)
      ensures !Surfaces(n, packages, g, q, h)
    {
      assert q in Ancestors(p);
    }
    if (p, c) !in NewView(n, packages, g) { KeptUnlessShadowed(n, packages, g, from, p, c); }
  }

  lemma {:induction false} MovedMakeView(d: Disk, n: Node, packages: seq<Package>, g: Package, content: Contents, from: Found)
    requires Invariant(n, packages) && g in packages && RestoreList(n, packages, g, from)
    requires Holds(d, Removed(n, g), Kept(n, packages, g), content) && FitsTarget(n, packages, g, d.target, from)
    ensures Kept(n, packages, g) + Moved(d.target, from) == NewView(n, packages, g)
  {
    var kept, moved, after := Kept(n, packages, g), Moved(d.target, from), NewView(n, packages, g);
    forall x: (Path, Package) ensures x in kept + moved <==> x in after {
      var p, c := x.0, x.1;
      assert x == (p, c);
      if x in kept { KeptStaysVisible(d, n, packages, g, content, from, p, c); }
      if x in from { ListedIsOther(n, packages, g, from, p, c); }
      if x in after { NewlyVisibleIsListed(n, packages, g, from, p, c); }
      assert x in kept ==> p in d.target.files;
    }
  }

  lemma {:induction false} RestoreListRestorable(d: Disk, n: Node, packages: seq<Package>, g: Package, content: Contents, from: Found)
    requires Invariant(n, packages) && g in packages && RestoreList(n, packages, g, from)
    requires Holds(d, Removed(n, g), Kept(n, packages, g), content)
    ensures Restorable(d, Removed(n, g), Kept(n, packages, g), from)
  {
    forall p, c | (p, c) in from && !Exists(d.target, p)
      ensures c in Owners(Removed(n, g), p) && (p, c) !in Kept(n, packages, g)
    {
      ListedIsOther(n, packages, g, from, p, c);
      assert (p, c) in Kept(n, packages, g) ==> p in d.target.files;
    }
  }

  // ---------------------------------------------------------------- It does not fit

  /** Each listed file is hidden, as a file of the clobbers area, or its place is taken. */
  ghost predicate Ready(d: Disk, from: Found) {
    forall p, c :: (p, c) in from ==> Exists(d.target, p) || ClobberPath(c, p) in d.clobbers.files
  }

  lemma RestoreReady(d: Disk, p: Path, c: Package)
    requires IsTree(d.target) && IsTree(d.clobbers)
    requires !Exists(d.target, p) && ClobberPath(c, p) in d.clobbers.files && Restore(d, p, c).Done?
    ensures
      var src := ClobberPath(c, p);
      Restore(d, p, c).disk == Disk(
        Tree(d.target.files[p := d.clobbers.files[src]], d.target.dirs + Ancestors(p)),
        Tree(d.clobbers.files - {src}, d.clobbers.dirs))
    ensures IsTree(Restore(d, p, c).disk.target) && IsTree(Restore(d, p, c).disk.clobbers)
  {
    var src := ClobberPath(c, p);
    MoveFile(d.clobbers, src, d.target, p);
    AddFile(d.target, p, d.clobbers.files[src]);
    DropFile(d.clobbers, src);
  }

  lemma {:induction false} RestoreAllOnlyTakes(d: Disk, from: Found, k: Path)
    requires k !in d.clobbers.files
    ensures RestoreAll(d, from).Done? ==> k !in RestoreAll(d, from).disk.clobbers.files
    decreases |from|
  {
    if from != [] {
      var first := Restore(d, from[0].0, from[0].1);
      if first.Done? { RestoreAllOnlyTakes(first.disk, from[1..], k); }
    }
  }

  /** Moving the first file of the list keeps the rest ready and the places below free. */
  lemma {:induction false} ReadyTail(d: Disk, from: Found, p: Path, c: Package)
    requires from != [] && ParentsFirst(from) && Ready(d, from) && IsTree(d.target) && IsTree(d.clobbers)
    requires Restore(d, from[0].0, from[0].1).Done?
    requires (p, c) in from[1..] && !Exists(d.target, p)
    ensures
      var e := Restore(d, from[0].0, from[0].1).disk;
      IsTree(e.target) && IsTree(e.clobbers) && Ready(e, from[1..]) && !Exists(e.target, p)
  {
    var (q, h) := from[0];
    var rest := from[1..];
    var i :| 0 <= i < |rest| && rest[i] == (p, c);
    assert !(from[i + 1].0 <= q);
    assert (q, h) in from && forall r, f :: (r, f) in rest ==> (r, f) in from;
    if !Exists(d.target, q) {
      RestoreReady(d, q, h);
      StillReady(d, Restore(d, q, h).disk, from);
    }
  }

  lemma {:induction false} StillReady(d: Disk, e: Disk, from: Found)
    requires from != [] && ParentsFirst(from) && Ready(d, from)
    requires e.target.files.Keys == d.target.files.Keys + {from[0].0} && d.target.dirs <= e.target.dirs
    requires e.clobbers.files.Keys == d.clobbers.files.Keys - {ClobberPath(from[0].1, from[0].0)}
    ensures Ready(e, from[1..])
  {
    var rest := from[1..];
    forall r, f | (r, f) in rest ensures Exists(e.target, r) || ClobberPath(f, r) in e.clobbers.files {
      ClobberPathInjective();
      assert (r, f) in from;
    }
  }

  /** A listed file at whose place nothing stands leaves the clobbers area, or the call fails. */
  lemma {:induction false} FreePlaceIsTaken(d: Disk, from: Found, p: Path, c: Package)
    requires ParentsFirst(from) && Ready(d, from) && IsTree(d.target) && IsTree(d.clobbers)
    requires (p, c) in from && !Exists(d.target, p)
    ensures RestoreAll(d, from).Done? ==> ClobberPath(c, p) !in RestoreAll(d, from).disk.clobbers.files
    decreases |from|
  {
    var (q, h) := from[0];
    var first := Restore(d, q, h);
    if first.Done? {
      if (q, h) == (p, c) {
        RestoreReady(d, p, c);
        RestoreAllOnlyTakes(first.disk, from[1..], ClobberPath(c, p));
      } else {
        assert (p, c) in from[1..];
        ReadyTail(d, from, p, c);
        FreePlaceIsTaken(first.disk, from[1..], p, c);
      }
    }
  }

  lemma {:induction false} MisfitBreaksView(d: Disk, n: Node, packages: seq<Package>, g: Package, content: Contents, from: Found, p: Path, c: Package)
    requires Invariant(n, packages) && g in packages && RestoreList(n, packages, g, from)
    requires Holds(d, Removed(n, g), Kept(n, packages, g), content)
    requires (p, c) in from && !Visible(n, packages, p, c)
    requires Surfaces(n, packages, g, p, c) <==> Exists(d.target, p)
    ensures !Shows(RestoreAll(d, from), Removed(n, g), NewView(n, packages, g), content)
  {
    var end := RestoreAll(d, from);
    ListedIsOther(n, packages, g, from, p, c);
    assert ClobberPath(c, p) in d.clobbers.files;
    if Exists(d.target, p) {
      RestoreAllSkips(d, p, c, from);
      HidingBreaksView(end, Removed(n, g), NewView(n, packages, g), content, p, c);
    } else {
      RestoreListRestorable(d, n, packages, g, content, from);
      assert Ready(d, from);
      FreePlaceIsTaken(d, from, p, c);
    }
  }

  // ---------------------------------------------------------------- Exactly when

  /** From a disk that shows what is left of the old view, restoring the list succeeds and
      shows the new view exactly when, of the listed files that were hidden, those and only
      those surface at whose place nothing stands in the target. */
  lemma {:induction false} UnregisterSyncIff(d: Disk, n: Node, packages: seq<Package>, g: Package, content: Contents, from: Found)
    requires Invariant(n, packages) && g in packages && RestoreList(n, packages, g, from)
    requires Holds(d, Removed(n, g), Kept(n, packages, g), content)
    ensures FitsTarget(n, packages, g, d.target, from) <==>
      Shows(Sync(d, [], from), Removed(n, g), NewView(n, packages, g), content)
  {
    assert Sync(d, [], from) == RestoreAll(d, from);
    if FitsTarget(n, packages, g, d.target, from) {
      RemoveKeepsInvariant(n, packages, g);
      ViewFacts(Removed(n, g), Without(packages, g));
      MovedMakeView(d, n, packages, g, content, from);
      RestoreListRestorable(d, n, packages, g, content, from);
      RestoreAllHolds(d, Removed(n, g), Kept(n, packages, g), content, from);
    } else {
      var p, c :| (p, c) in from && !Visible(n, packages, p, c) &&
        (Surfaces(n, packages, g, p, c) <==> Exists(d.target, p));
      MisfitBreaksView(d, n, packages, g, content, from, p, c);
    }
  }

  /** A file kept in the target stands at p or below it. */
  ghost predicate TakenBy(kept: Files, p: Path) { exists q, h :: (q, h) in kept && p <= q }

  lemma TidyTaken(d: Disk, n: Node, kept: Files, content: Contents, p: Path)
    requires Holds(d, n, kept, content) && Tidy(d.target)
    ensures Exists(d.target, p) <==> TakenBy(kept, p)
  {
    if Exists(d.target, p) {
      var q :| q in d.target.files && p <= q;
      var h :| (q, h) in kept;
    }
    if q, h :| (q, h) in kept && p <= q {
      assert q in d.target.files && (q == p || p < q);
    }
  }

  /** On a target without empty directories the condition can be read off the trie and the
      order before the call: of the listed files that were hidden, exactly those surface with
      no visible file of another package at their place or below it. */
  lemma {:induction false} TidyUnregisterSyncIff(d: Disk, n: Node, packages: seq<Package>, g: Package, content: Contents, from: Found)
    requires Invariant(n, packages) && g in packages && RestoreList(n, packages, g, from)
    requires Holds(d, Removed(n, g), Kept(n, packages, g), content) && Tidy(d.target)
    ensures Shows(Sync(d, [], from), Removed(n, g), NewView(n, packages, g), content) <==>
      forall p, c :: (p, c) in from && !Visible(n, packages, p, c) ==>
        (Surfaces(n, packages, g, p, c) <==> !TakenBy(Kept(n, packages, g), p))
  {
    forall p ensures Exists(d.target, p) <==> TakenBy(Kept(n, packages, g), p) {
      TidyTaken(d, Removed(n, g), Kept(n, packages, g), content, p);
    }
    UnregisterSyncIff(d, n, packages, g, content, from);
  }

  // ---------------------------------------------------------------- A failure

  /** When w owns foo, and g and after it c own x below foo, unregistering g restores c's x,
      and the synchronisation fails on every disk that shows foo: x needs a directory where
      the file foo stands. */
  lemma {:induction false} UnregisterSyncFails(w: Package, foo: Path, g: Package, c: Package, x: Path, d: Disk, content: Contents)
    returns (ops: seq<Operation>)
    requires w != g && g != c && w != c && foo < x
    requires Holds(d, Removed(ThreeFiles(w, foo, g, c, x), g), Kept(ThreeFiles(w, foo, g, c, x), [w, g, c], g), content)
    ensures Reachable(ThreeFiles(w, foo, g, c, x), [w, g, c], ops)
    ensures RestoreList(ThreeFiles(w, foo, g, c, x), [w, g, c], g, [(x, c)])
    ensures Sync(d, [], [(x, c)]) == Failed(d)
  {
    ops := ThreeFilesReachable(w, foo, g, c, x);
    ListOfThree(ThreeFiles(w, foo, g, c, x), w, foo, g, c, x, [(x, c)]);
    FooBlocks(ThreeFiles(w, foo, g, c, x), w, foo, g, c, x, d, content);
    OneRestore(d, [(x, c)], x, c);
  }

  lemma {:induction false} ListOfThree(n: Node, w: Package, foo: Path, g: Package, c: Package, x: Path, from: Found)
    requires n == ThreeFiles(w, foo, g, c, x) && Invariant(n, [w, g, c]) && from == [(x, c)]
    requires w != g && g != c && w != c && foo < x
    ensures RestoreList(n, [w, g, c], g, from)
  {
    ThreeFilesRestore(n, w, foo, g, c, x);
    forall p, h ensures (p, h) in from <==> FallsBack(n, [w, g, c], g, p, h) {
      RestoresExactly(n, [w, g, c], g, p, h);
    }
  }

  lemma {:induction false} FooBlocks(n: Node, w: Package, foo: Path, g: Package, c: Package, x: Path, d: Disk, content: Contents)
    requires n == ThreeFiles(w, foo, g, c, x) && Invariant(n, [w, g, c])
    requires w != g && g != c && w != c && foo < x
    requires Holds(d, Removed(n, g), Kept(n, [w, g, c], g), content)
    ensures Restore(d, x, c) == Failed(d)
  {
    OnlyFooShown(n, w, foo, g, c, x);
    ThreeFilesAt(w, foo, g, c, x, x);
    RemovedAt(n, g, x);
    assert (foo, w) in Kept(n, [w, g, c], g) && (x, c) !in Kept(n, [w, g, c], g);
    BlockedByFile(d, Removed(n, g), Kept(n, [w, g, c], g), content, x, c, foo);
  }

  lemma BlockedByFile(d: Disk, m: Node, shown: Files, content: Contents, p: Path, c: Package, q: Path)
    requires Holds(d, m, shown, content) && c in Owners(m, p) && (p, c) !in shown
    requires q < p && ShownAt(shown, q)
    ensures Restore(d, p, c) == Failed(d)
  {
    assert q in d.target.files && q in Ancestors(p);
    assert ClobberPath(c, p) in d.clobbers.files;
  }

  lemma OneRestore(d: Disk, from: Found, p: Path, c: Package)
    requires from == [(p, c)] && Restore(d, p, c).Failed?
    ensures Sync(d, [], from) == Restore(d, p, c)
  {
    assert Sync(d, [], from) == RestoreAll(d, from);
  }

  lemma {:induction false} OnlyFooShown(n: Node, w: Package, foo: Path, g: Package, c: Package, x: Path)
    requires n == ThreeFiles(w, foo, g, c, x) && Invariant(n, [w, g, c])
    requires w != g && g != c && w != c && foo < x
    ensures Visible(n, [w, g, c], foo, w) && !Visible(n, [w, g, c], x, c)
  {
    var packages := [w, g, c];
    ThreeFilesAt(w, foo, g, c, x, foo);
    TagsBelow(n, foo);
    assert w in Tags(n, foo);
    assert LocalFile(n, packages, foo, w);
    forall q, h | q < foo ensures !LocalFile(n, packages, q, h) {
      ThreeFilesAt(w, foo, g, c, x, q);
    }
    VisibleIffTopmost(n, packages, foo, w);
    VisibleIffTopmost(n, packages, x, c);
  }
}
