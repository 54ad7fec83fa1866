/** Two smallest states in which a change of priority does not arrive on disk: a package with
    one file below another, and a directory that gives way to a file
    (crates/path_resolver/src/lib.rs). */
module SyncFailures {
  import opened Orders
  import opened PathTrie
  import opened ClobberView
  import opened ResolverState
  import opened TrieWalks
  import opened PathResolution
  import opened InsertedView
  import opened ClobberDisk
  import opened ClobberSync

  // ---------------------------------------------------------------- Views of one file

  ghost predicate OnlyShown(n: Node, order: seq<Package>, p: Path, g: Package) {
    forall q, h :: Visible(n, order, q, h) <==> q == p && h == g
  }

  /** A local file that stands above all others is the only visible one. */
  lemma TopmostIsOnly(n: Node, order: seq<Package>, p: Path, g: Package)
    requires WellTagged(n) && Covers(order, n.prefixes) && LocalFile(n, order, p, g)
    requires forall q, h :: LocalFile(n, order, q, h) ==> p <= q
    ensures OnlyShown(n, order, p, g)
  {
    forall q, h ensures Visible(n, order, q, h) <==> q == p && h == g {
      VisibleIffTopmost(n, order, q, h);
      assert p <= q ==> p == q || p < q;
      forall r, f | r < p ensures !LocalFile(n, order, r, f) {
        assert !(p <= r);
      }
    }
  }

  lemma SwapSets(n: Node, was: seq<Package>, now: seq<Package>, p: Path, g: Package, q: Path, h: Package, to: Found, from: Found)
    requires OnlyShown(n, was, p, g) && OnlyShown(n, now, q, h) && g != h && g in Owners(n, p)
    requires to == [(p, g)] && from == [(q, h)]
    ensures TurnsOldIntoNew(n, was, now, to, from)
  {
    assert forall r, f :: (r, f) in to <==> r == p && f == g;
    assert forall r, f :: (r, f) in from <==> r == q && f == h;
  }

  // ---------------------------------------------------------------- Disks without empty directories

  function TreeOf(files: map<Path, Content>): Tree {
    Tree(files, set f, q | f in files && q in Ancestors(f) :: q)
  }

  lemma TreeOfIsTidy(files: map<Path, Content>)
    requires forall p, q :: p in files && q in files ==> !(p < q)
    ensures IsTree(TreeOf(files)) && Tidy(TreeOf(files))
  {
    var t := TreeOf(files);
    forall q ensures q in t.dirs <==> exists f :: f in files && q < f {
      if f :| f in files && q < f { assert q in Ancestors(f); }
    }
    forall p | Exists(t, p) ensures Ancestors(p) <= t.dirs {
      if p in t.dirs {
        var f :| f in files && p in Ancestors(f);
        forall q | q in Ancestors(p) ensures q in t.dirs { assert q in Ancestors(f); }
      }
    }
  }

  /** The target holds one file, the clobbers area the others. */
  lemma OneShownHolds(d: Disk, n: Node, order: seq<Package>, content: Contents, p: Path, g: Package)
    requires OnlyShown(n, order, p, g) && g in Owners(n, p)
    requires d.target == TreeOf(map[p := content(p, g)])
    requires IsTree(d.clobbers) && ClobbersHold(d.clobbers.files, n, iset{(p, g)}, content)
    ensures Holds(d, n, View(n, order), content) && Tidy(d.target)
  {
    TreeOfIsTidy(map[p := content(p, g)]);
    assert View(n, order) == iset{(p, g)};
    assert (p, g) in View(n, order);
  }

  lemma OneHideOneRestore(d: Disk, p: Path, g: Package, q: Path, h: Package, to: Found, from: Found)
    requires to == [(p, g)] && from == [(q, h)] && Hide(d, p, g).Done?
    ensures Sync(d, to, from) == Restore(Hide(d, p, g).disk, q, h)
  {
    var e := Hide(d, p, g).disk;
    assert HideAll(d, to) == HideAll(e, to[1..]) == Done(e);
    match Restore(e, q, h) {
      case Done(f) => assert RestoreAll(e, from) == RestoreAll(f, from[1..]) == Done(f);
      case Failed(f) =>
    }
  }

  // ---------------------------------------------------------------- A second file of the package

  /** g owns foo and a file x below it, and h after it owns foo. */
  function NestedFiles(g: Package, foo: Path, x: Path, h: Package): Node {
    Inserted(Inserted(EMPTY, g, [foo, x]), h, [foo])
  }

  lemma {:induction false} NestedFilesAt(g: Package, foo: Path, x: Path, h: Package, q: Path)
    ensures Owners(NestedFiles(g, foo, x, h), q) == (if q == foo then {g, h} else {}) + if q == x then {g} else {}
  {
    InsertedAt(EMPTY, g, [foo, x], q);
    InsertedAt(Inserted(EMPTY, g, [foo, x]), h, [foo], q);
    assert q in [foo, x] <==> q == foo || q == x;
    assert q in [foo] <==> q == foo;
  }

  lemma {:induction false} NestedFilesShow(n: Node, g: Package, foo: Path, x: Path, h: Package, order: seq<Package>, best: Package)
    requires n == NestedFiles(g, foo, x, h) && WellTagged(n) && Covers(order, n.prefixes)
    requires foo < x && best in {g, h} && order != [] && order[0] == best
    ensures OnlyShown(n, order, foo, best)
  {
    NestedFilesAt(g, foo, x, h, foo);
    TagsBelow(n, foo);
    assert LocalFile(n, order, foo, best);
    forall q, f | LocalFile(n, order, q, f) ensures foo <= q { NestedFilesAt(g, foo, x, h, q); }
    TopmostIsOnly(n, order, foo, best);
  }

  function NestedClobbers(g: Package, foo: Path, x: Path, h: Package, content: Contents): map<Path, Content> {
    map[ClobberPath(h, foo) := content(foo, h), ClobberPath(g, x) := content(x, g)]
  }

  lemma {:induction false} NestedClobbersHold(n: Node, g: Package, foo: Path, x: Path, h: Package, content: Contents)
    requires n == NestedFiles(g, foo, x, h) && g != h && foo < x
    ensures ClobbersHold(NestedClobbers(g, foo, x, h, content), n, iset{(foo, g)}, content)
    ensures IsTree(TreeOf(NestedClobbers(g, foo, x, h, content))) && Tidy(TreeOf(NestedClobbers(g, foo, x, h, content)))
  {
    var files := NestedClobbers(g, foo, x, h, content);
    ClobberPathInjective();
    forall c, q ensures ClobberPath(c, q) in files <==> c in Owners(n, q) && (q, c) !in iset{(foo, g)} {
      NestedFilesAt(g, foo, x, h, q);
    }
    ClobberPathPrefix(g, x, h, foo);
    ClobberPathPrefix(h, foo, g, x);
    TreeOfIsTidy(files);
  }

  /** Putting h before g should swap the two files at foo, but nothing moves: g's hidden file
      x keeps the place of g's foo. */
  lemma {:induction false} SwapFailsForNestedFiles(g: Package, foo: Path, x: Path, h: Package, content: Contents)
    returns (ops: seq<Operation>, d: Disk)
    requires g != h && foo < x
    ensures Reachable(NestedFiles(g, foo, x, h), [g, h], ops)
    ensures TurnsOldIntoNew(NestedFiles(g, foo, x, h), [g, h], [h, g], [(foo, g)], [(foo, h)])
    ensures Holds(d, NestedFiles(g, foo, x, h), View(NestedFiles(g, foo, x, h), [g, h]), content)
    ensures Tidy(d.target) && Tidy(d.clobbers)
    ensures Sync(d, [(foo, g)], [(foo, h)]) == Done(d)
    ensures !Shows(Sync(d, [(foo, g)], [(foo, h)]), NestedFiles(g, foo, x, h), View(NestedFiles(g, foo, x, h), [h, g]), content)
  {
    ops := TwoInserts(g, [foo, x], h, [foo]);
    RunsKeepInvariant(NestedFiles(g, foo, x, h), [g, h], ops);
    d := Disk(TreeOf(map[foo := content(foo, g)]), TreeOf(NestedClobbers(g, foo, x, h, content)));
    NestedSwap(NestedFiles(g, foo, x, h), g, foo, x, h, content, d, [(foo, g)], [(foo, h)]);
  }

  lemma {:induction false} NestedSwap(n: Node, g: Package, foo: Path, x: Path, h: Package, content: Contents, d: Disk, to: Found, from: Found)
    requires n == NestedFiles(g, foo, x, h) && Invariant(n, [g, h]) && g != h && foo < x
    requires d == Disk(TreeOf(map[foo := content(foo, g)]), TreeOf(NestedClobbers(g, foo, x, h, content)))
    requires to == [(foo, g)] && from == [(foo, h)]
    ensures TurnsOldIntoNew(n, [g, h], [h, g], to, from)
    ensures Holds(d, n, View(n, [g, h]), content) && Tidy(d.target) && Tidy(d.clobbers)
    ensures Sync(d, to, from) == Done(d)
    ensures !Shows(Sync(d, to, from), n, View(n, [h, g]), content)
  {
    NestedFilesShow(n, g, foo, x, h, [g, h], g);
    NestedFilesShow(n, g, foo, x, h, [h, g], h);
    NestedFilesAt(g, foo, x, h, foo);
    SwapSets(n, [g, h], [h, g], foo, g, foo, h, to, from);
    NestedClobbersHold(n, g, foo, x, h, content);
    OneShownHolds(d, n, [g, h], content, foo, g);
    ClobberPathPrefix(g, foo, g, x);
    assert ClobberPath(g, x) in d.clobbers.files && ClobberPath(g, foo) in Ancestors(ClobberPath(g, x));
    assert Hide(d, foo, g) == Done(d) && Restore(d, foo, h) == Done(d);
    OneHideOneRestore(d, foo, g, foo, h, to, from);
    assert ClobberPath(h, foo) in d.clobbers.files;
    HidingBreaksView(Sync(d, to, from), n, View(n, [h, g]), content, foo, h);
  }

  // ---------------------------------------------------------------- A directory left behind

  lemma {:induction false} SwappedTwoFilesShow(n: Node, g: Package, x: Path, h: Package, foo: Path)
    requires n == TwoFiles(g, x, h, foo) && Invariant(n, [g, h]) && g != h && foo < x
    ensures OnlyShown(n, [g, h], x, g) && OnlyShown(n, [h, g], foo, h)
  {
    TwoFilesAt(g, x, h, foo, x);
    TwoFilesAt(g, x, h, foo, foo);
    TagsBelow(n, x);
    TagsBelow(n, foo);
    assert LocalFile(n, [g, h], x, g) && LocalFile(n, [h, g], foo, h);
    forall q, f ensures (LocalFile(n, [g, h], q, f) ==> x <= q) && (LocalFile(n, [h, g], q, f) ==> foo <= q) {
      TwoFilesAt(g, x, h, foo, q);
      TwoFilesShadow(g, x, h, foo, f);
    }
    TopmostIsOnly(n, [g, h], x, g);
    TopmostIsOnly(n, [h, g], foo, h);
  }

  lemma {:induction false} TwoClobbersHold(n: Node, g: Package, x: Path, h: Package, foo: Path, content: Contents)
    requires n == TwoFiles(g, x, h, foo) && g != h && foo < x
    ensures ClobbersHold(map[ClobberPath(h, foo) := content(foo, h)], n, iset{(x, g)}, content)
    ensures
      var t := TreeOf(map[ClobberPath(h, foo) := content(foo, h)]);
      IsTree(t) && Tidy(t)
  {
    var files := map[ClobberPath(h, foo) := content(foo, h)];
    ClobberPathInjective();
    forall c, q ensures ClobberPath(c, q) in files <==> c in Owners(n, q) && (q, c) !in iset{(x, g)} {
      TwoFilesAt(g, x, h, foo, q);
    }
    TreeOfIsTidy(files);
  }

  /** g owns x, and h after it a file foo above x. Putting h first should replace the directory
      foo by the file. The file x is moved away, but the emptied directory stays, so that foo
      is silently not restored. */
  lemma {:induction false} SwapFailsForDirectories(g: Package, x: Path, h: Package, foo: Path, content: Contents)
    returns (ops: seq<Operation>, d: Disk)
    requires g != h && foo < x
    ensures Reachable(TwoFiles(g, x, h, foo), [g, h], ops)
    ensures TurnsOldIntoNew(TwoFiles(g, x, h, foo), [g, h], [h, g], [(x, g)], [(foo, h)])
    ensures HiddenAlone(TwoFiles(g, x, h, foo), View(TwoFiles(g, x, h, foo), [g, h]), [(x, g)])
    ensures Holds(d, TwoFiles(g, x, h, foo), View(TwoFiles(g, x, h, foo), [g, h]), content)
    ensures Tidy(d.target) && Tidy(d.clobbers)
    ensures
      var end := Sync(d, [(x, g)], [(foo, h)]);
      && end.Done? && end.disk.target == Tree(map[], Ancestors(x))
      && !Shows(end, TwoFiles(g, x, h, foo), View(TwoFiles(g, x, h, foo), [h, g]), content)
  {
    ops := TwoInserts(g, [x], h, [foo]);
    RunsKeepInvariant(TwoFiles(g, x, h, foo), [g, h], ops);
    d := Disk(TreeOf(map[x := content(x, g)]), TreeOf(map[ClobberPath(h, foo) := content(foo, h)]));
    DirectorySwap(TwoFiles(g, x, h, foo), g, x, h, foo, content, d, [(x, g)], [(foo, h)]);
  }

  lemma {:induction false} DirectorySwap(n: Node, g: Package, x: Path, h: Package, foo: Path, content: Contents, d: Disk, to: Found, from: Found)
    requires n == TwoFiles(g, x, h, foo) && Invariant(n, [g, h]) && g != h && foo < x
    requires d == Disk(TreeOf(map[x := content(x, g)]), TreeOf(map[ClobberPath(h, foo) := content(foo, h)]))
    requires to == [(x, g)] && from == [(foo, h)]
    ensures TurnsOldIntoNew(n, [g, h], [h, g], to, from) && HiddenAlone(n, View(n, [g, h]), to)
    ensures Holds(d, n, View(n, [g, h]), content) && Tidy(d.target) && Tidy(d.clobbers)
    ensures Sync(d, to, from).Done? && Sync(d, to, from).disk.target == Tree(map[], Ancestors(x))
    ensures !Shows(Sync(d, to, from), n, View(n, [h, g]), content)
  {
    SwappedTwoFilesShow(n, g, x, h, foo);
    TwoFilesAt(g, x, h, foo, x);
    SwapSets(n, [g, h], [h, g], x, g, foo, h, to, from);
    TwoClobbersHold(n, g, x, h, foo, content);
    OneShownHolds(d, n, [g, h], content, x, g);
    forall q | g in Owners(n, q) ensures q == x { TwoFilesAt(g, x, h, foo, q); }
    AloneHasRoom(d, n, View(n, [g, h]), content, x, g);
    DirectoryStays(d, n, View(n, [g, h]), g, x, h, foo, content);
    OneHideOneRestore(d, x, g, foo, h, to, from);
    HidingBreaksView(Sync(d, to, from), n, View(n, [h, g]), content, foo, h);
  }

  /** Hiding x leaves the directory foo, which keeps the file foo from being restored. */
  lemma {:induction false} DirectoryStays(d: Disk, n: Node, shown: Files, g: Package, x: Path, h: Package, foo: Path, content: Contents)
    requires Holds(d, n, shown, content) && (x, g) in shown && Room(d.clobbers, ClobberPath(g, x)) && foo < x
    requires d.target == TreeOf(map[x := content(x, g)]) && ClobberPath(h, foo) in d.clobbers.files
    ensures Hide(d, x, g).Done? && Hide(d, x, g).disk.target == Tree(map[], Ancestors(x))
    ensures Restore(Hide(d, x, g).disk, foo, h) == Done(Hide(d, x, g).disk)
    ensures ClobberPath(h, foo) in Hide(d, x, g).disk.clobbers.files
  {
    HideMoves(d, n, shown, content, x, g);
    assert d.target.dirs == Ancestors(x);
    assert foo in Ancestors(x);
  }
}
