/** sync_clobbers of crates/path_resolver/src/lib.rs on a disk of two trees of files and
    directories: the target prefix, and the clobbers area whose first component names a
    package. */
module ClobberDisk {
  import opened Orders
  import opened PathTrie
  import opened ClobberView
  import opened TrieWalks

  type Content = string

  datatype Tree = Tree(files: map<Path, Content>, dirs: set<Path>)

  datatype Disk = Disk(target: Tree, clobbers: Tree)

  /** The I/O error is that of creating a directory below a regular file. */
  datatype Outcome = Done(disk: Disk) | Failed(disk: Disk)

  function ClobberPath(g: Package, p: Path): Path { [g] + p }

  function Ancestors(p: Path): (s: set<Path>)
    ensures forall q :: q in s <==> q < p
  {
    assert forall q :: q < p ==> q == p[..|q|];
    set i | 0 <= i < |p| :: p[..i]
  }

  /** There is a file or a directory at p. */
  predicate Exists(t: Tree, p: Path) { p in t.files || p in t.dirs }

  /** A regular file stands where p needs a directory. */
  predicate Blocked(t: Tree, p: Path) { exists q :: q in t.files && q < p }

  /** What is left of a tree after moving the file or the directory at p away. The
      directories above p stay, even if nothing is left in them. */
  function Leave(t: Tree, p: Path): Tree {
    Tree(map r | r in t.files && !(p <= r) :: t.files[r], set r | r in t.dirs && !(p <= r))
  }

  /** A tree with what stood at p in another tree added at q, and the directories above q. */
  function Arrive(t: Tree, q: Path, from: Tree, p: Path): Tree {
    Tree(t.files + MovedFiles(q, from.files, p),
         t.dirs + Ancestors(q) + set r | r in from.dirs && p <= r :: q + r[|p|..])
  }

  function MovedFiles(q: Path, files: map<Path, Content>, p: Path): map<Path, Content> {
    map s | s in (set r | r in files && p <= r :: q + r[|p|..]) ::
      assert exists r :: r in files && p <= r && s == q + r[|p|..];
      assert forall r :: r in files && p <= r && s == q + r[|p|..] ==> p + s[|q|..] == r;
      files[p + s[|q|..]]
  }

  /** Move target/p to clobbers/g/p if the source exists and the destination does not. */
  function Hide(d: Disk, p: Path, g: Package): Outcome {
    var dst := ClobberPath(g, p);
    if Exists(d.target, p) && !Exists(d.clobbers, dst) then
      if Blocked(d.clobbers, dst) then Failed(d)
      else Done(Disk(Leave(d.target, p), Arrive(d.clobbers, dst, d.target, p)))
    else Done(d)
  }

  /** Move clobbers/g/p to target/p under the same conditions. */
  function Restore(d: Disk, p: Path, g: Package): Outcome {
    var src := ClobberPath(g, p);
    if Exists(d.clobbers, src) && !Exists(d.target, p) then
      if Blocked(d.target, p) then Failed(d)
      else Done(Disk(Arrive(d.target, p, d.clobbers, src), Leave(d.clobbers, src)))
    else Done(d)
  }

  function HideAll(d: Disk, to: Found): Outcome
    decreases |to|
  {
    if to == [] then Done(d)
    else match Hide(d, to[0].0, to[0].1)
      case Done(e) => HideAll(e, to[1..])
      case Failed(e) => Failed(e)
  }

  function RestoreAll(d: Disk, from: Found): Outcome
    decreases |from|
  {
    if from == [] then Done(d)
    else match Restore(d, from[0].0, from[0].1)
      case Done(e) => RestoreAll(e, from[1..])
      case Failed(e) => Failed(e)
  }

  function Sync(d: Disk, to: Found, from: Found): Outcome {
    match HideAll(d, to)
    case Done(e) => RestoreAll(e, from)
    case Failed(e) => Failed(e)
  }

  class Prefix {
    var target: Tree
    var clobbers: Tree

    method Move(fromTarget: bool, p: Path, g: Package) returns (ok: bool)
      modifies this
      ensures (if ok then Done(Disk(target, clobbers)) else Failed(Disk(target, clobbers))) ==
        if fromTarget then Hide(old(Disk(target, clobbers)), p, g) else Restore(old(Disk(target, clobbers)), p, g)
    {
      var away := ClobberPath(g, p);
      if fromTarget {
        if Exists(target, p) && !Exists(clobbers, away) {
          if Blocked(clobbers, away) { return false; }
          target, clobbers := Leave(target, p), Arrive(clobbers, away, target, p);
        }
      } else {
        if Exists(clobbers, away) && !Exists(target, p) {
          if Blocked(target, p) { return false; }
          target, clobbers := Arrive(target, p, clobbers, away), Leave(clobbers, away);
        }
      }
      return true;
    }

    method SyncClobbers(to: Found, from: Found) returns (ok: bool)
      modifies this
      ensures (if ok then Done(Disk(target, clobbers)) else Failed(Disk(target, clobbers))) ==
        Sync(old(Disk(target, clobbers)), to, from)
    {
      ghost var start := Disk(target, clobbers);
      for i := 0 to |to|
        invariant HideAll(start, to) == HideAll(Disk(target, clobbers), to[i..])
      {
        assert to[i..][1..] == to[i + 1..];
        ok := Move(true, to[i].0, to[i].1);
        if !ok { return; }
      }
      ghost var middle := Disk(target, clobbers);
      for i := 0 to |from|
        invariant HideAll(start, to) == Done(middle)
        invariant RestoreAll(middle, from) == RestoreAll(Disk(target, clobbers), from[i..])
      {
        assert from[i..][1..] == from[i + 1..];
        ok := Move(false, from[i].0, from[i].1);
        if !ok { return; }
      }
      ok := true;
    }
  }

  // ---------------------------------------------------------------- Trees

  /** Nothing is both a file and a directory, and what exists lies in directories. */
  ghost predicate IsTree(t: Tree) {
    && (forall p :: p in t.files ==> p !in t.dirs)
    && (forall p :: Exists(t, p) ==> Ancestors(p) <= t.dirs)
  }

  /** A file can be put at p. */
  ghost predicate Room(t: Tree, p: Path) { !Exists(t, p) && !Blocked(t, p) }

  lemma ClobberPathInjective()
    ensures forall g, p, h, q :: ClobberPath(g, p) == ClobberPath(h, q) ==> g == h && p == q
  {
    forall g, p, h, q | ClobberPath(g, p) == ClobberPath(h, q) ensures g == h && p == q {
      assert ClobberPath(g, p)[1..] == p && ClobberPath(h, q)[1..] == q;
      assert ClobberPath(g, p)[0] == g;
    }
  }

  /** Places in the area are above one another only within one package. */
  lemma ClobberPathPrefix(g: Package, p: Path, h: Package, q: Path)
    ensures ClobberPath(g, p) <= ClobberPath(h, q) <==> g == h && p <= q
    ensures ClobberPath(g, p) < ClobberPath(h, q) <==> g == h && p < q
  {
    PrefixStep(ClobberPath(g, p), ClobberPath(h, q));
    assert ClobberPath(g, p)[1..] == p && ClobberPath(h, q)[1..] == q;
  }

  lemma NothingBelowFile(t: Tree, p: Path)
    requires IsTree(t) && p in t.files
    ensures forall r :: r in t.files && p <= r ==> r == p
    ensures forall r :: r in t.dirs ==> !(p <= r)
  {
    forall r | p <= r ensures (r in t.files ==> r == p) && r !in t.dirs {
      assert r == p || p < r;
      assert Exists(t, r) && p < r ==> p in Ancestors(r);
    }
  }

  /** Moving a regular file moves nothing else. */
  lemma MoveFile(t: Tree, p: Path, u: Tree, q: Path)
    requires IsTree(t) && p in t.files
    ensures Leave(t, p) == Tree(t.files - {p}, t.dirs)
    ensures Arrive(u, q, t, p) == Tree(u.files[q := t.files[p]], u.dirs + Ancestors(q))
  {
    NothingBelowFile(t, p);
    assert Leave(t, p).files == t.files - {p} && Leave(t, p).dirs == t.dirs;
    MoveOneFile(t.files, p, q);
    assert (set r | r in t.dirs && p <= r :: q + r[|p|..]) == {};
    assert Arrive(u, q, t, p).files == u.files[q := t.files[p]];
    assert Arrive(u, q, t, p).dirs == u.dirs + Ancestors(q);
  }

  lemma MoveOneFile(files: map<Path, Content>, p: Path, q: Path)
    requires p in files && forall r :: r in files && p <= r ==> r == p
    ensures MovedFiles(q, files, p) == map[q := files[p]]
  {
    assert p <= p && p[|p|..] == [] && q + [] == q && p + [] == p;
    var keys := set r | r in files && p <= r :: q + r[|p|..];
    assert q in keys;
    forall s | s in keys ensures s == q {
      var r :| r in files && p <= r && s == q + r[|p|..];
    }
    assert q[|q|..] == [];
  }

  lemma AddFile(t: Tree, p: Path, c: Content)
    requires IsTree(t) && Room(t, p)
    ensures IsTree(Tree(t.files[p := c], t.dirs + Ancestors(p)))
  {
    var u := Tree(t.files[p := c], t.dirs + Ancestors(p));
    forall q | q in u.files ensures q !in u.dirs {
      if q != p { assert !(q < p); }
    }
    forall q | Exists(u, q) ensures Ancestors(q) <= u.dirs {
      if !Exists(t, q) { assert q <= p; }
    }
  }

  lemma DropFile(t: Tree, p: Path)
    requires IsTree(t)
    ensures IsTree(Tree(t.files - {p}, t.dirs))
  {
    var u := Tree(t.files - {p}, t.dirs);
    assert forall q :: Exists(u, q) ==> Exists(t, q);
  }

  // ---------------------------------------------------------------- What the disk holds

  type Files = iset<(Path, Package)>

  ghost predicate Antichain(shown: Files) {
    forall p, g, q, h :: (p, g) in shown && (q, h) in shown && p <= q ==> p == q && g == h
  }

  ghost predicate ShownAt(shown: Files, p: Path) { exists g :: (p, g) in shown }

  type Contents = (Path, Package) -> Content

  /** The target holds exactly the shown files, each with its own content. */
  ghost predicate TargetHolds(t: map<Path, Content>, shown: Files, content: Contents) {
    && (forall p :: p in t <==> ShownAt(shown, p))
    && (forall p, g :: (p, g) in shown ==> p in t && t[p] == content(p, g))
  }

  /** The clobbers area holds exactly the owned files that are not shown. */
  ghost predicate ClobbersHold(t: map<Path, Content>, n: Node, shown: Files, content: Contents) {
    && [] !in t
    && (forall g, p :: ClobberPath(g, p) in t <==> g in Owners(n, p) && (p, g) !in shown)
    && (forall g, p :: ClobberPath(g, p) in t ==> t[ClobberPath(g, p)] == content(p, g))
  }

  ghost predicate Holds(d: Disk, n: Node, shown: Files, content: Contents) {
    && IsTree(d.target) && IsTree(d.clobbers)
    && (forall p, g :: (p, g) in shown ==> g in Owners(n, p))
    && TargetHolds(d.target.files, shown, content)
    && ClobbersHold(d.clobbers.files, n, shown, content)
  }

  lemma TargetWithout(t: map<Path, Content>, shown: Files, content: Contents, p: Path, g: Package)
    requires TargetHolds(t, shown, content) && Antichain(shown) && (p, g) in shown
    ensures TargetHolds(t - {p}, shown - iset{(p, g)}, content)
  {
    var less := shown - iset{(p, g)};
    forall q ensures ShownAt(less, q) <==> ShownAt(shown, q) && q != p {
      if ShownAt(shown, q) && q != p {
        var h :| (q, h) in shown;
        assert (q, h) in less;
      }
    }
  }

  lemma TargetWith(t: map<Path, Content>, shown: Files, content: Contents, p: Path, g: Package)
    requires TargetHolds(t, shown, content) && !ShownAt(shown, p)
    ensures TargetHolds(t[p := content(p, g)], shown + iset{(p, g)}, content)
  {
    var more := shown + iset{(p, g)};
    assert (p, g) in more;
    forall q ensures ShownAt(more, q) <==> ShownAt(shown, q) || q == p {
      if ShownAt(shown, q) {
        var h :| (q, h) in shown;
        assert (q, h) in more;
      }
    }
  }

  lemma ClobbersWith(t: map<Path, Content>, n: Node, shown: Files, content: Contents, p: Path, g: Package)
    requires ClobbersHold(t, n, shown, content) && g in Owners(n, p)
    ensures ClobbersHold(t[ClobberPath(g, p) := content(p, g)], n, shown - iset{(p, g)}, content)
  {
    ClobberPathInjective();
  }

  lemma ClobbersWithout(t: map<Path, Content>, n: Node, shown: Files, content: Contents, p: Path, g: Package)
    requires ClobbersHold(t, n, shown, content)
    ensures ClobbersHold(t - {ClobberPath(g, p)}, n, shown + iset{(p, g)}, content)
  {
    ClobberPathInjective();
  }

  // ---------------------------------------------------------------- One move

  lemma HideMoves(d: Disk, n: Node, shown: Files, content: Contents, p: Path, g: Package)
    requires Holds(d, n, shown, content) && (p, g) in shown && Room(d.clobbers, ClobberPath(g, p))
    ensures Hide(d, p, g) == Done(Disk(
      Tree(d.target.files - {p}, d.target.dirs),
      Tree(d.clobbers.files[ClobberPath(g, p) := content(p, g)], d.clobbers.dirs + Ancestors(ClobberPath(g, p)))))
  {
    assert p in d.target.files;
    MoveFile(d.target, p, d.clobbers, ClobberPath(g, p));
  }

  lemma HideShown(d: Disk, n: Node, shown: Files, content: Contents, p: Path, g: Package)
    requires Holds(d, n, shown, content) && Antichain(shown)
    requires (p, g) in shown && Room(d.clobbers, ClobberPath(g, p))
    ensures Hide(d, p, g).Done? && Holds(Hide(d, p, g).disk, n, shown - iset{(p, g)}, content)
  {
    HideMoves(d, n, shown, content, p, g);
    DropFile(d.target, p);
    AddFile(d.clobbers, ClobberPath(g, p), content(p, g));
    TargetWithout(d.target.files, shown, content, p, g);
    ClobbersWith(d.clobbers.files, n, shown, content, p, g);
  }

  lemma RestoreMoves(d: Disk, n: Node, shown: Files, content: Contents, p: Path, g: Package)
    requires Holds(d, n, shown, content) && g in Owners(n, p) && (p, g) !in shown && Room(d.target, p)
    ensures Restore(d, p, g) == Done(Disk(
      Tree(d.target.files[p := content(p, g)], d.target.dirs + Ancestors(p)),
      Tree(d.clobbers.files - {ClobberPath(g, p)}, d.clobbers.dirs)))
  {
    assert ClobberPath(g, p) in d.clobbers.files;
    MoveFile(d.clobbers, ClobberPath(g, p), d.target, p);
  }

  lemma RestoreHidden(d: Disk, n: Node, shown: Files, content: Contents, p: Path, g: Package)
    requires Holds(d, n, shown, content) && g in Owners(n, p) && (p, g) !in shown && Room(d.target, p)
    ensures Restore(d, p, g).Done? && Holds(Restore(d, p, g).disk, n, shown + iset{(p, g)}, content)
  {
    RestoreMoves(d, n, shown, content, p, g);
    AddFile(d.target, p, content(p, g));
    DropFile(d.clobbers, ClobberPath(g, p));
    TargetWith(d.target.files, shown, content, p, g);
    ClobbersWithout(d.clobbers.files, n, shown, content, p, g);
  }

  // ---------------------------------------------------------------- The first loop

  ghost function Pairs(s: Found): Files { iset x | x in s }

  lemma PairsCons(s: Found)
    requires s != []
    ensures Pairs(s) == iset{s[0]} + Pairs(s[1..])
  {
    assert s == [s[0]] + s[1..];
  }

  /** Each file to hide is shown and has room in the clobbers area, or is not there at all. */
  ghost predicate Hideable(d: Disk, shown: Files, to: Found) {
    forall p, g :: (p, g) in to ==>
      if (p, g) in shown then Room(d.clobbers, ClobberPath(g, p)) else !Exists(d.target, p)
  }

  lemma HideableAfter(d: Disk, n: Node, shown: Files, content: Contents, p: Path, g: Package, rest: Found)
    requires Holds(d, n, shown, content) && Antichain(shown)
    requires (p, g) in shown && Room(d.clobbers, ClobberPath(g, p)) && Hideable(d, shown, rest)
    ensures Hide(d, p, g).Done? && Hideable(Hide(d, p, g).disk, shown - iset{(p, g)}, rest)
  {
    HideMoves(d, n, shown, content, p, g);
    var e, less := Hide(d, p, g).disk, shown - iset{(p, g)};
    forall q, h | (q, h) in rest
      ensures if (q, h) in less then Room(e.clobbers, ClobberPath(h, q)) else !Exists(e.target, q)
    {
      ClobberPathPrefix(g, p, h, q);
      ClobberPathPrefix(h, q, g, p);
      if (q, h) == (p, g) { assert p !in d.target.dirs; }
    }
  }

  /** The first loop takes exactly the listed shown files away, and empties no directory
      of itself. */
  lemma {:induction false} HideAllHolds(d: Disk, n: Node, shown: Files, content: Contents, to: Found)
    requires Holds(d, n, shown, content) && Antichain(shown) && Hideable(d, shown, to)
    ensures HideAll(d, to).Done? && Holds(HideAll(d, to).disk, n, shown - Pairs(to), content)
    ensures HideAll(d, to).disk.target.dirs == d.target.dirs
    decreases |to|
  {
    if to == [] {
      assert shown - Pairs(to) == shown;
    } else {
      var (p, g) := to[0];
      var rest, less := to[1..], shown - iset{(p, g)};
      PairsCons(to);
      assert less - Pairs(rest) == shown - Pairs(to);
      assert (p, g) in to && forall q, h :: (q, h) in rest ==> (q, h) in to;
      if (p, g) in shown {
        HideMoves(d, n, shown, content, p, g);
        HideShown(d, n, shown, content, p, g);
        HideableAfter(d, n, shown, content, p, g, rest);
      } else {
        assert Hide(d, p, g) == Done(d) && less == shown;
      }
      HideAllHolds(Hide(d, p, g).disk, n, less, content, rest);
    }
  }

  // ---------------------------------------------------------------- The second loop

  /** The listed files at whose place nothing stands in the target. */
  ghost function Moved(t: Tree, from: Found): Files { iset x | x in from && !Exists(t, x.0) }

  /** Each file to restore is hidden, or something stands at its place. */
  ghost predicate Restorable(d: Disk, n: Node, shown: Files, from: Found) {
    && ParentsFirst(from)
    && forall p, g :: (p, g) in from ==> Exists(d.target, p) || (g in Owners(n, p) && (p, g) !in shown)
  }

  lemma RestoreRoom(d: Disk, n: Node, shown: Files, content: Contents, p: Path, g: Package)
    requires Holds(d, n, shown, content) && !Exists(d.target, p) && Antichain(shown + iset{(p, g)})
    ensures Room(d.target, p)
  {
    forall q | q in d.target.files ensures !(q < p) {
      var h :| (q, h) in shown;
      assert (q, h) in shown + iset{(p, g)} && (p, g) in shown + iset{(p, g)};
    }
  }

  /** Putting one of the files to move at its place makes no difference for the others. */
  lemma StandsAlike(t: Tree, u: Tree, from: Found, i: nat)
    requires ParentsFirst(from) && Antichain(Moved(t, from)) && 0 < i < |from|
    requires !Exists(t, from[0].0)
    requires u.files.Keys == t.files.Keys + {from[0].0} && u.dirs == t.dirs + Ancestors(from[0].0)
    ensures Exists(u, from[i].0) <==> Exists(t, from[i].0)
    ensures from[i].0 != from[0].0
  {
    var x, y := from[0], from[i];
    assert !(y.0 <= x.0);
    assert !Exists(t, y.0) ==> (x.0, x.1) in Moved(t, from) && (y.0, y.1) in Moved(t, from);
  }

  lemma MovedTail(t: Tree, u: Tree, from: Found)
    requires from != [] && ParentsFirst(from) && Antichain(Moved(t, from))
    requires !Exists(t, from[0].0)
    requires u.files.Keys == t.files.Keys + {from[0].0} && u.dirs == t.dirs + Ancestors(from[0].0)
    ensures forall p, g :: (p, g) in from[1..] ==> p != from[0].0 && (Exists(u, p) <==> Exists(t, p))
    ensures Moved(t, from) == iset{from[0]} + Moved(u, from[1..])
  {
    var rest := from[1..];
    forall p, g | (p, g) in rest ensures p != from[0].0 && (Exists(u, p) <==> Exists(t, p)) {
      var i :| 0 <= i < |rest| && rest[i] == (p, g);
      StandsAlike(t, u, from, i + 1);
    }
    assert from == [from[0]] + rest;
    forall x ensures x in Moved(t, from) <==> x in iset{from[0]} + Moved(u, rest) {
      assert (x.0, x.1) in rest <==> x in rest;
    }
  }

  lemma AntichainSubset(a: Files, b: Files)
    requires a <= b && Antichain(b)
    ensures Antichain(a)
  {
  }

  lemma RestoreListed(d: Disk, n: Node, shown: Files, content: Contents, p: Path, g: Package)
    requires Holds(d, n, shown, content) && !Exists(d.target, p) && Antichain(shown + iset{(p, g)})
    requires g in Owners(n, p) && (p, g) !in shown
    ensures Restore(d, p, g).Done? && Holds(Restore(d, p, g).disk, n, shown + iset{(p, g)}, content)
    ensures Restore(d, p, g).disk.target == Tree(d.target.files[p := content(p, g)], d.target.dirs + Ancestors(p))
  {
    RestoreRoom(d, n, shown, content, p, g);
    RestoreMoves(d, n, shown, content, p, g);
    RestoreHidden(d, n, shown, content, p, g);
  }

  /** Moving the first file, at whose place nothing stands, leaves the rest as it was. */
  lemma {:induction false} RestoreFirst(d: Disk, n: Node, shown: Files, content: Contents, from: Found)
    requires from != [] && !Exists(d.target, from[0].0)
    requires Holds(d, n, shown, content) && Restorable(d, n, shown, from)
    requires Antichain(shown + Moved(d.target, from))
    ensures
      var (p, g) := from[0];
      var done := Restore(d, p, g);
      && done.Done? && Holds(done.disk, n, shown + iset{(p, g)}, content)
      && shown + Moved(d.target, from) == shown + iset{(p, g)} + Moved(done.disk.target, from[1..])
      && Restorable(done.disk, n, shown + iset{(p, g)}, from[1..])
  {
    var (p, g) := from[0];
    var moved := Moved(d.target, from);
    assert (p, g) in from && (p, g) in moved;
    AntichainSubset(shown + iset{(p, g)}, shown + moved);
    AntichainSubset(moved, shown + moved);
    RestoreListed(d, n, shown, content, p, g);
    var e := Restore(d, p, g).disk;
    MovedTail(d.target, e.target, from);
    RestorableTail(d, e, n, shown, from);
  }

  lemma RestorableTail(d: Disk, e: Disk, n: Node, shown: Files, from: Found)
    requires from != [] && Restorable(d, n, shown, from)
    requires forall p, g :: (p, g) in from[1..] ==> p != from[0].0 && (Exists(e.target, p) <==> Exists(d.target, p))
    ensures Restorable(e, n, shown + iset{from[0]}, from[1..])
  {
    assert forall p, g :: (p, g) in from[1..] ==> (p, g) in from;
  }

  /** The second loop shows exactly the listed files at whose place nothing stood. */
  lemma {:induction false} RestoreAllHolds(d: Disk, n: Node, shown: Files, content: Contents, from: Found)
    requires Holds(d, n, shown, content) && Restorable(d, n, shown, from)
    requires Antichain(shown + Moved(d.target, from))
    ensures RestoreAll(d, from).Done?
    ensures Holds(RestoreAll(d, from).disk, n, shown + Moved(d.target, from), content)
    decreases |from|
  {
    if from == [] {
      assert shown + Moved(d.target, from) == shown;
    } else if Exists(d.target, from[0].0) {
      MovedSkips(d.target, from);
      assert forall q, h :: (q, h) in from[1..] ==> (q, h) in from;
      RestoreAllHolds(d, n, shown, content, from[1..]);
    } else {
      RestoreFirst(d, n, shown, content, from);
      RestoreAllHolds(Restore(d, from[0].0, from[0].1).disk, n, shown + iset{from[0]}, content, from[1..]);
    }
  }

  lemma MovedSkips(t: Tree, from: Found)
    requires from != [] && Exists(t, from[0].0)
    ensures Moved(t, from[1..]) == Moved(t, from)
  {
    assert from == [from[0]] + from[1..];
  }
}
