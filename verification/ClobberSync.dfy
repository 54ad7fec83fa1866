/** End to end: whether sync_clobbers, run on the change sets of reprioritize_packages, takes
    a disk from the old view to the new one (crates/path_resolver/src/lib.rs). */
module ClobberSync {
  import opened Orders
  import opened PathTrie
  import opened ClobberView
  import opened TrieWalks
  import opened PathResolution
  import opened ClobberDisk

  ghost function View(n: Node, order: seq<Package>): Files {
    iset p: Path, g: Package | Visible(n, order, p, g) :: (p, g)
  }

  lemma ViewFacts(n: Node, order: seq<Package>)
    requires WellTagged(n) && Covers(order, n.prefixes)
    ensures Antichain(View(n, order))
    ensures forall p, g :: (p, g) in View(n, order) ==> g in Owners(n, p)
  {
    forall p, g | Visible(n, order, p, g) ensures g in Owners(n, p) {
      VisibleIffTopmost(n, order, p, g);
    }
    forall p, g, q, h | Visible(n, order, p, g) && Visible(n, order, q, h) && p <= q ensures p == q && g == h {
      VisibleAntichain(n, order, p, g, q, h);
    }
  }

  /** What the two loops need of the disk they start from: every shown file to hide has room
      in the clobbers area, and no file to restore has a directory at its place. */
  ghost predicate Fits(d: Disk, shown: Files, to: Found, from: Found) {
    && (forall p, g :: (p, g) in to && (p, g) in shown ==> Room(d.clobbers, ClobberPath(g, p)))
    && (forall p, g :: (p, g) in from ==> p !in d.target.dirs)
  }

  // ---------------------------------------------------------------- It fits

  lemma ChangesHideable(d: Disk, n: Node, was: seq<Package>, now: seq<Package>, content: Contents, to: Found, from: Found)
    requires TurnsOldIntoNew(n, was, now, to, from)
    requires Holds(d, n, View(n, was), content) && Fits(d, View(n, was), to, from)
    ensures Hideable(d, View(n, was), to)
  {
    forall p, g | (p, g) in to && (p, g) !in View(n, was) ensures !Exists(d.target, p) {
      var q, h :| q < p && Visible(n, was, q, h);
      assert (q, h) in View(n, was);
      assert Exists(d.target, p) ==> q in Ancestors(p);
    }
  }

  lemma ChangesMakeView(n: Node, was: seq<Package>, now: seq<Package>, to: Found, from: Found)
    requires TurnsOldIntoNew(n, was, now, to, from)
    ensures (View(n, was) - Pairs(to)) + Pairs(from) == View(n, now)
  {
    var before, after := View(n, was), View(n, now);
    forall x: (Path, Package) ensures x in (before - Pairs(to)) + Pairs(from) <==> x in after {
      assert (x.0, x.1) in to <==> x in to;
      assert (x.0, x.1) in from <==> x in from;
      assert (x.0, x.1) in before <==> Visible(n, was, x.0, x.1);
      assert (x.0, x.1) in after <==> Visible(n, now, x.0, x.1);
    }
  }

  /** After the first loop all files to restore can be moved. */
  lemma ChangesRestorable(e: Disk, n: Node, was: seq<Package>, now: seq<Package>, content: Contents, to: Found, from: Found)
    requires TurnsOldIntoNew(n, was, now, to, from) && WellTagged(n) && Covers(now, n.prefixes)
    requires Holds(e, n, View(n, was) - Pairs(to), content)
    requires forall p, g :: (p, g) in from ==> p !in e.target.dirs
    ensures Restorable(e, n, View(n, was) - Pairs(to), from) && Moved(e.target, from) == Pairs(from)
  {
    ViewFacts(n, now);
    ChangesMakeView(n, was, now, to, from);
    var kept := View(n, was) - Pairs(to);
    forall p, g | (p, g) in from
      ensures !Exists(e.target, p) && g in Owners(n, p) && (p, g) !in kept
    {
      assert (p, g) in View(n, now) && (p, g) !in View(n, was);
      forall h | (p, h) in kept ensures h == g { assert (p, h) in View(n, now); }
    }
    forall x ensures x in Moved(e.target, from) <==> x in Pairs(from) {
      assert x in from <==> (x.0, x.1) in from;
    }
  }

  /** From a disk showing exactly the old view, moving the files of the change sets succeeds
      and leaves a disk showing exactly the new view, every other owned file being in the
      clobbers area with its content; nothing is overwritten or lost. */
  lemma {:induction false} SyncReachesNewView(d: Disk, n: Node, was: seq<Package>, now: seq<Package>, content: Contents, to: Found, from: Found)
    requires WellTagged(n) && Covers(was, n.prefixes) && Covers(now, n.prefixes)
    requires TurnsOldIntoNew(n, was, now, to, from)
    requires Holds(d, n, View(n, was), content) && Fits(d, View(n, was), to, from)
    ensures Sync(d, to, from).Done? && Holds(Sync(d, to, from).disk, n, View(n, now), content)
  {
    var before := View(n, was);
    ViewFacts(n, was);
    ViewFacts(n, now);
    ChangesHideable(d, n, was, now, content, to, from);
    HideAllHolds(d, n, before, content, to);
    ChangesRestorable(HideAll(d, to).disk, n, was, now, content, to, from);
    ChangesMakeView(n, was, now, to, from);
    RestoreAllHolds(HideAll(d, to).disk, n, before - Pairs(to), content, from);
  }

  // ---------------------------------------------------------------- A file that cannot be hidden

  /** The file of g at p is still in the target and not in the clobbers area. */
  ghost predicate Stays(d: Disk, p: Path, g: Package) {
    p in d.target.files && ClobberPath(g, p) !in d.clobbers.files
  }

  /** Without room in the clobbers area the file stays: its place is taken by a directory, or
      needs one where there is a file. */
  lemma HideKeepsBack(d: Disk, p: Path, g: Package, r: Path, h: Package)
    requires Stays(d, p, g) && !Room(d.clobbers, ClobberPath(g, p))
    requires r <= p ==> (r, h) == (p, g)
    ensures Hide(d, r, h).Done? ==>
      Stays(Hide(d, r, h).disk, p, g) && !Room(Hide(d, r, h).disk.clobbers, ClobberPath(g, p))
  {
    if !(r <= p) {
      ClobberPathInjective();
      forall s | r <= s ensures ClobberPath(h, r) + s[|r|..] == ClobberPath(h, s) {}
    }
  }

  lemma {:induction false} HideAllKeepsBack(d: Disk, p: Path, g: Package, to: Found)
    requires Stays(d, p, g) && !Room(d.clobbers, ClobberPath(g, p))
    requires forall r, h :: (r, h) in to && r <= p ==> (r, h) == (p, g)
    ensures HideAll(d, to).Done? ==> Stays(HideAll(d, to).disk, p, g)
    decreases |to|
  {
    if to != [] {
      assert (to[0].0, to[0].1) in to && forall r, h :: (r, h) in to[1..] ==> (r, h) in to;
      HideKeepsBack(d, p, g, to[0].0, to[0].1);
      var first := Hide(d, to[0].0, to[0].1);
      if first.Done? { HideAllKeepsBack(first.disk, p, g, to[1..]); }
    }
  }

  lemma {:induction false} RestoreAllKeepsBack(d: Disk, p: Path, g: Package, from: Found)
    requires Stays(d, p, g)
    ensures RestoreAll(d, from).Done? ==> Stays(RestoreAll(d, from).disk, p, g)
    decreases |from|
  {
    if from != [] {
      var first := Restore(d, from[0].0, from[0].1);
      if first.Done? { RestoreAllKeepsBack(first.disk, p, g, from[1..]); }
    }
  }

  /** Nothing on the way to an existing place is to be hidden, except a shown file there. */
  lemma OnlyShownOnTheWay(d: Disk, n: Node, was: seq<Package>, now: seq<Package>, content: Contents, to: Found, from: Found, p: Path, r: Path, h: Package)
    requires TurnsOldIntoNew(n, was, now, to, from) && Holds(d, n, View(n, was), content)
    requires Exists(d.target, p) && (r, h) in to && r <= p
    ensures r == p && p in d.target.files && Visible(n, was, r, h)
  {
    forall q, f | Visible(n, was, q, f) && q <= p ensures q == p && p in d.target.files {
      assert (q, f) in View(n, was);
      assert q < p ==> q in Ancestors(p);
    }
  }

  lemma {:induction false} CrowdedFileStays(d: Disk, n: Node, was: seq<Package>, now: seq<Package>, content: Contents, to: Found, from: Found, p: Path, g: Package)
    requires WellTagged(n) && Covers(was, n.prefixes)
    requires TurnsOldIntoNew(n, was, now, to, from) && Holds(d, n, View(n, was), content)
    requires (p, g) in to && Visible(n, was, p, g) && !Room(d.clobbers, ClobberPath(g, p))
    ensures Sync(d, to, from).Done? ==> Stays(Sync(d, to, from).disk, p, g)
  {
    ViewFacts(n, was);
    assert (p, g) in View(n, was);
    forall r, h | (r, h) in to && r <= p ensures (r, h) == (p, g) {
      OnlyShownOnTheWay(d, n, was, now, content, to, from, p, r, h);
      assert (r, h) in View(n, was);
    }
    HideAllKeepsBack(d, p, g, to);
    if HideAll(d, to).Done? { RestoreAllKeepsBack(HideAll(d, to).disk, p, g, from); }
  }

  // ---------------------------------------------------------------- A file that cannot be restored

  /** Something stands at p in the target, in directories, and g's file for p is hidden. */
  ghost predicate Occupied(d: Disk, p: Path, g: Package) {
    Exists(d.target, p) && Ancestors(p) <= d.target.dirs && ClobberPath(g, p) in d.clobbers.files
  }

  lemma HideKeepsDirectory(d: Disk, p: Path, g: Package, r: Path, h: Package)
    requires Occupied(d, p, g) && p in d.target.dirs && !(r <= p)
    ensures Hide(d, r, h).Done? ==>
      Occupied(Hide(d, r, h).disk, p, g) && p in Hide(d, r, h).disk.target.dirs
  {
    assert forall q :: q in Ancestors(p) ==> !(r <= q);
  }

  lemma {:induction false} HideAllKeepsDirectory(d: Disk, p: Path, g: Package, to: Found)
    requires Occupied(d, p, g) && p in d.target.dirs
    requires forall r, h :: (r, h) in to ==> !(r <= p)
    ensures HideAll(d, to).Done? ==> Occupied(HideAll(d, to).disk, p, g)
    decreases |to|
  {
    if to != [] {
      assert (to[0].0, to[0].1) in to && forall r, h :: (r, h) in to[1..] ==> (r, h) in to;
      HideKeepsDirectory(d, p, g, to[0].0, to[0].1);
      var first := Hide(d, to[0].0, to[0].1);
      if first.Done? { HideAllKeepsDirectory(first.disk, p, g, to[1..]); }
    }
  }

  lemma RestoreSkips(d: Disk, p: Path, g: Package, r: Path, h: Package)
    requires Occupied(d, p, g)
    ensures Restore(d, r, h).Done? ==> Occupied(Restore(d, r, h).disk, p, g)
  {
    ClobberPathPrefix(h, r, g, p);
    if r <= p {
      assert r == p || r in Ancestors(p);
    } else {
      assert !(ClobberPath(h, r) <= ClobberPath(g, p));
    }
  }

  /** As long as something stands at its place, a hidden file stays hidden. */
  lemma {:induction false} RestoreAllSkips(d: Disk, p: Path, g: Package, from: Found)
    requires Occupied(d, p, g)
    ensures RestoreAll(d, from).Done? ==> Occupied(RestoreAll(d, from).disk, p, g)
    decreases |from|
  {
    if from != [] {
      RestoreSkips(d, p, g, from[0].0, from[0].1);
      var first := Restore(d, from[0].0, from[0].1);
      if first.Done? { RestoreAllSkips(first.disk, p, g, from[1..]); }
    }
  }

  lemma {:induction false} DirectoryKeepsFileHidden(d: Disk, n: Node, was: seq<Package>, now: seq<Package>, content: Contents, to: Found, from: Found, p: Path, g: Package)
    requires WellTagged(n) && Covers(now, n.prefixes)
    requires TurnsOldIntoNew(n, was, now, to, from) && Holds(d, n, View(n, was), content)
    requires (p, g) in from && p in d.target.dirs
    ensures Sync(d, to, from).Done? ==> ClobberPath(g, p) in Sync(d, to, from).disk.clobbers.files
  {
    ViewFacts(n, now);
    assert (p, g) in View(n, now) && (p, g) !in View(n, was);
    assert Occupied(d, p, g);
    forall r, h | (r, h) in to ensures !(r <= p) {
      if r <= p { OnlyShownOnTheWay(d, n, was, now, content, to, from, p, r, h); }
    }
    HideAllKeepsDirectory(d, p, g, to);
    if HideAll(d, to).Done? { RestoreAllSkips(HideAll(d, to).disk, p, g, from); }
  }

  // ---------------------------------------------------------------- Exactly when

  /** The call succeeded and the disk shows exactly these files. */
  ghost predicate Shows(o: Outcome, n: Node, shown: Files, content: Contents) {
    o.Done? && Holds(o.disk, n, shown, content)
  }

  /** The synchronisation reaches the new view exactly when the change sets fit the disk. */
  lemma {:induction false} SyncReachesNewViewIff(d: Disk, n: Node, was: seq<Package>, now: seq<Package>, content: Contents, to: Found, from: Found)
    requires WellTagged(n) && Covers(was, n.prefixes) && Covers(now, n.prefixes)
    requires TurnsOldIntoNew(n, was, now, to, from) && Holds(d, n, View(n, was), content)
    ensures Fits(d, View(n, was), to, from) <==> Shows(Sync(d, to, from), n, View(n, now), content)
  {
    if Fits(d, View(n, was), to, from) {
      SyncReachesNewView(d, n, was, now, content, to, from);
    } else if p, g :| (p, g) in to && (p, g) in View(n, was) && !Room(d.clobbers, ClobberPath(g, p)) {
      CrowdedFileStays(d, n, was, now, content, to, from, p, g);
      StayingBreaksView(d, n, was, now, content, to, from, p, g);
    } else {
      var p, g :| (p, g) in from && p in d.target.dirs;
      DirectoryKeepsFileHidden(d, n, was, now, content, to, from, p, g);
      HidingBreaksView(Sync(d, to, from), n, View(n, now), content, p, g);
    }
  }

  lemma StayingBreaksView(d: Disk, n: Node, was: seq<Package>, now: seq<Package>, content: Contents, to: Found, from: Found, p: Path, g: Package)
    requires TurnsOldIntoNew(n, was, now, to, from) && (p, g) in to
    requires Sync(d, to, from).Done? ==> Stays(Sync(d, to, from).disk, p, g)
    ensures !Shows(Sync(d, to, from), n, View(n, now), content)
  {
    assert g in Owners(n, p) && (p, g) !in View(n, now);
  }

  lemma HidingBreaksView(o: Outcome, n: Node, shown: Files, content: Contents, p: Path, g: Package)
    requires (p, g) in shown
    requires o.Done? ==> ClobberPath(g, p) in o.disk.clobbers.files
    ensures !Shows(o, n, shown, content)
  {
  }

  // ---------------------------------------------------------------- Disks without empty directories

  /** Every directory is there because of a file below it. */
  ghost predicate Tidy(t: Tree) {
    forall q :: q in t.dirs <==> exists f :: f in t.files && q < f
  }

  /** g owns no second file above or below p. */
  ghost predicate Alone(n: Node, p: Path, g: Package) {
    forall q :: g in Owners(n, q) && Comparable(p, q) ==> q == p
  }

  /** Every shown file that is to be hidden is the only one of its package on its branch. */
  ghost predicate HiddenAlone(n: Node, shown: Files, to: Found) {
    forall p, g :: (p, g) in to && (p, g) in shown ==> Alone(n, p, g)
  }

  /** No shown file lies strictly below a place where a file is to be restored. */
  ghost predicate NoneBelow(shown: Files, from: Found) {
    forall p, g, q, h :: (p, g) in from && (q, h) in shown ==> !(p < q)
  }

  lemma AloneHasRoom(d: Disk, n: Node, shown: Files, content: Contents, p: Path, g: Package)
    requires Holds(d, n, shown, content) && Tidy(d.clobbers) && (p, g) in shown && Alone(n, p, g)
    ensures Room(d.clobbers, ClobberPath(g, p))
  {
    forall f | f in d.clobbers.files ensures !(ClobberPath(g, p) < f) && !(f < ClobberPath(g, p)) {
      assert f == ClobberPath(f[0], f[1..]);
      ClobberPathPrefix(g, p, f[0], f[1..]);
      ClobberPathPrefix(f[0], f[1..], g, p);
      assert f[1..] == p ==> f == ClobberPath(f[0], p);
    }
  }

  lemma SecondFileTakesRoom(d: Disk, n: Node, shown: Files, content: Contents, p: Path, g: Package, q: Path)
    requires Holds(d, n, shown, content) && Tidy(d.clobbers) && Antichain(shown) && (p, g) in shown
    requires g in Owners(n, q) && Comparable(p, q) && q != p
    ensures !Room(d.clobbers, ClobberPath(g, p))
  {
    assert (q, g) !in shown;
    assert ClobberPath(g, q) in d.clobbers.files;
    ClobberPathPrefix(g, p, g, q);
    ClobberPathPrefix(g, q, g, p);
    assert p < q || q < p;
  }

  lemma TidyRoom(d: Disk, n: Node, shown: Files, content: Contents, p: Path, g: Package)
    requires Holds(d, n, shown, content) && Tidy(d.clobbers) && Antichain(shown) && (p, g) in shown
    ensures Room(d.clobbers, ClobberPath(g, p)) <==> Alone(n, p, g)
  {
    if Alone(n, p, g) {
      AloneHasRoom(d, n, shown, content, p, g);
    } else {
      var q :| g in Owners(n, q) && Comparable(p, q) && q != p;
      SecondFileTakesRoom(d, n, shown, content, p, g, q);
    }
  }

  lemma TidyFits(d: Disk, n: Node, was: seq<Package>, content: Contents, to: Found, from: Found)
    requires WellTagged(n) && Covers(was, n.prefixes)
    requires Holds(d, n, View(n, was), content) && Tidy(d.target) && Tidy(d.clobbers)
    ensures Fits(d, View(n, was), to, from) <==> HiddenAlone(n, View(n, was), to) && NoneBelow(View(n, was), from)
  {
    var shown := View(n, was);
    ViewFacts(n, was);
    forall p, g | (p, g) in shown ensures Room(d.clobbers, ClobberPath(g, p)) <==> Alone(n, p, g) {
      TidyRoom(d, n, shown, content, p, g);
    }
    forall p ensures p in d.target.dirs <==> exists q, h :: (q, h) in shown && p < q {
      if p in d.target.dirs {
        var f :| f in d.target.files && p < f;
        var h :| (f, h) in shown;
      }
    }
  }

  /** On a disk without empty directories the condition can be read off the trie and the
      orders: every visible file to hide is the only one of its package above or below it,
      and no file visible before lies strictly below a restored path. */
  lemma {:induction false} TidySyncIff(d: Disk, n: Node, was: seq<Package>, now: seq<Package>, content: Contents, to: Found, from: Found)
    requires WellTagged(n) && Covers(was, n.prefixes) && Covers(now, n.prefixes)
    requires TurnsOldIntoNew(n, was, now, to, from)
    requires Holds(d, n, View(n, was), content) && Tidy(d.target) && Tidy(d.clobbers)
    ensures HiddenAlone(n, View(n, was), to) && NoneBelow(View(n, was), from) <==>
      Shows(Sync(d, to, from), n, View(n, now), content)
  {
    TidyFits(d, n, was, content, to, from);
    SyncReachesNewViewIff(d, n, was, now, content, to, from);
  }
}
