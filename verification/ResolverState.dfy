/** The state changes of the resolver as functions, and what holds of every state they
    reach (crates/path_resolver/src/lib.rs). */
module ResolverState {
  import opened Orders
  import opened PathTrie
  import opened ClobberView

  // ---------------------------------------------------------------- Invariant

  /** The package owns a file comparable with q; below the root, one other than the root. */
  ghost predicate OwnsNear(n: Node, q: Path, g: Package) {
    exists f :: g in Owners(n, f) && Comparable(f, q) && (q != [] ==> f != [])
  }

  /** The five facts every reachable resolver satisfies: files are tagged, tags shrink
      downwards and are never empty below the root (all three in WellTagged), every tag is
      a registered package, and every tag is justified by a file on the same branch. */
  ghost predicate Invariant(n: Node, packages: seq<Package>) {
    && Distinct(packages)
    && WellTagged(n)
    && Covers(packages, n.prefixes)
    && forall q, g :: g in Tags(n, q) ==> OwnsNear(n, q, g)
  }

  // ---------------------------------------------------------------- Inserting

  function InsertAll(n: Node, paths: seq<Path>, g: Package): Node
    decreases |paths|
  {
    if paths == [] then n else InsertAll(Insert(n, paths[0], g), paths[1..], g)
  }

  function PropagateAll(n: Node, dirs: seq<Path>, g: Package): Node
    decreases |dirs|
  {
    if dirs == [] then n else PropagateAll(PropagateAt(n, dirs[0], g), dirs[1..], g)
  }

  datatype Verdict = NoConflict | FileConflict | DirectoryConflict

  /** The conflict walk for one new path; the root is never checked. */
  function Check(n: Node, p: Path): Verdict
    decreases |p|
  {
    if p == [] || p[0] !in n.children then NoConflict
    else
      var m := n.children[p[0]];
      if m.terminals != {} then FileConflict
      else if |p| > 1 then Check(m, p[1..])
      else if m.children != map[] then DirectoryConflict
      else NoConflict
  }

  function DirectoryInserts(n: Node, paths: seq<Path>): seq<Path>
    decreases |paths|
  {
    if paths == [] then []
    else (if Check(n, paths[0]) == DirectoryConflict then [paths[0]] else []) + DirectoryInserts(n, paths[1..])
  }

  function Register(packages: seq<Package>, g: Package): seq<Package> {
    if g in packages then packages else packages + [g]
  }

  function Inserted(n: Node, g: Package, paths: seq<Path>): Node {
    PropagateAll(InsertAll(n, paths, g), DirectoryInserts(n, paths), g)
  }

  ghost predicate Above(q: Path, paths: seq<Path>) { exists p :: p in paths && q <= p }
  ghost predicate Below(q: Path, paths: seq<Path>) { exists p :: p in paths && p <= q }

  lemma AboveSplit(q: Path, paths: seq<Path>)
    requires paths != []
    ensures Above(q, paths) <==> q <= paths[0] || Above(q, paths[1..])
    ensures Below(q, paths) <==> paths[0] <= q || Below(q, paths[1..])
    ensures q in paths <==> q == paths[0] || q in paths[1..]
  {
    assert paths == [paths[0]] + paths[1..];
    assert paths[0] in paths;
    assert forall p :: p in paths <==> p == paths[0] || p in paths[1..];
    if p: Path :| p in paths && (q <= p || p <= q) { assert p == paths[0] || p in paths[1..]; }
  }

  lemma {:induction false} InsertAllAt(n: Node, paths: seq<Path>, g: Package, q: Path)
    ensures Has(InsertAll(n, paths, g), q) <==> Has(n, q) || Above(q, paths)
    ensures Tags(InsertAll(n, paths, g), q) == Tags(n, q) + if Above(q, paths) then {g} else {}
    ensures Owners(InsertAll(n, paths, g), q) == Owners(n, q) + if q in paths then {g} else {}
    decreases |paths|
  {
    if paths != [] {
      InsertAt(n, paths[0], g, q);
      InsertAllAt(Insert(n, paths[0], g), paths[1..], g, q);
      AboveSplit(q, paths);
    }
  }

  lemma {:induction false} PropagateAllAt(n: Node, dirs: seq<Path>, g: Package, q: Path)
    ensures Has(PropagateAll(n, dirs, g), q) == Has(n, q)
    ensures Tags(PropagateAll(n, dirs, g), q) == Tags(n, q) + if Has(n, q) && Below(q, dirs) then {g} else {}
    ensures Owners(PropagateAll(n, dirs, g), q) == Owners(n, q)
    decreases |dirs|
  {
    if dirs != [] {
      PropagateAtEffect(n, dirs[0], g, q);
      PropagateAllAt(PropagateAt(n, dirs[0], g), dirs[1..], g, q);
      AboveSplit(q, dirs);
    }
  }

  lemma {:induction false} DirectoryInsertsAmong(n: Node, paths: seq<Path>, d: Path)
    ensures d in DirectoryInserts(n, paths) <==> d in paths && Check(n, d) == DirectoryConflict
    decreases |paths|
  {
    if paths != [] {
      DirectoryInsertsAmong(n, paths[1..], d);
      AboveSplit(d, paths);
    }
  }

  /** What an insertion changes, path by path. */
  lemma InsertedAt(n: Node, g: Package, paths: seq<Path>, q: Path)
    ensures Owners(Inserted(n, g, paths), q) == Owners(n, q) + if q in paths then {g} else {}
    ensures Has(Inserted(n, g, paths), q) <==> Has(n, q) || Above(q, paths)
    ensures Tags(n, q) <= Tags(Inserted(n, g, paths), q) <= Tags(n, q) + {g}
    ensures g in Tags(Inserted(n, g, paths), q) ==>
      g in Tags(n, q) || Above(q, paths) || (q != [] && exists d :: d in paths && d <= q && d != [])
  {
    var dirs := DirectoryInserts(n, paths);
    InsertAllAt(n, paths, g, q);
    PropagateAllAt(InsertAll(n, paths, g), dirs, g, q);
    if Below(q, dirs) {
      var d :| d in dirs && d <= q;
      DirectoryInsertsAmong(n, paths, d);
      assert d in paths && d != [];
    }
  }

  /** A file stands at p or on the way to it. */
  ghost predicate FileOnTheWay(n: Node, p: Path) {
    exists f :: f != [] && f <= p && Owners(n, f) != {}
  }

  /** There is a directory at p, below no file. */
  ghost predicate IsDirectory(n: Node, p: Path) {
    p != [] && !FileOnTheWay(n, p) && exists c :: Has(n, p + [c])
  }

  /** A new file takes the place of a directory at or above q. */
  ghost predicate BelowDirectory(n: Node, paths: seq<Path>, q: Path) {
    exists d :: d in paths && IsDirectory(n, d) && d <= q
  }

  /** What each verdict of the conflict walk means: a file at the path or on the way to it,
      or else a directory at the path. */
  lemma {:induction false} CheckMeans(n: Node, p: Path)
    ensures Check(n, p) == FileConflict <==> FileOnTheWay(n, p)
    ensures Check(n, p) == DirectoryConflict <==> IsDirectory(n, p)
    decreases |p|
  {
    if p != [] {
      FileStep(n, p);
      DirectoryStep(n, p);
      if p[0] in n.children {
        if |p| > 1 {
          CheckMeans(n.children[p[0]], p[1..]);
        } else {
          assert p[1..] == [];
          ChildrenStep(n.children[p[0]]);
        }
      }
    }
  }

  lemma FileStep(n: Node, p: Path)
    requires p != []
    ensures FileOnTheWay(n, p) <==>
      p[0] in n.children && (n.children[p[0]].terminals != {} || FileOnTheWay(n.children[p[0]], p[1..]))
  {
    if f :| f != [] && f <= p && Owners(n, f) != {} {
      PrefixStep(f, p);
      assert f == [p[0]] + f[1..];
      BelowChild(n, p[0], f[1..]);
      assert f[1..] <= p[1..];
    }
    if p[0] in n.children {
      var m := n.children[p[0]];
      BelowChild(n, p[0], []);
      assert [p[0]] + [] <= p;
      if f :| f != [] && f <= p[1..] && Owners(m, f) != {} {
        BelowChild(n, p[0], f);
        PrefixStep([p[0]] + f, p);
      }
    }
  }

  lemma DirectoryStep(n: Node, p: Path)
    requires p != []
    ensures (exists c :: Has(n, p + [c])) <==> p[0] in n.children && exists c :: Has(n.children[p[0]], p[1..] + [c])
  {
    forall c ensures Has(n, p + [c]) <==> p[0] in n.children && Has(n.children[p[0]], p[1..] + [c]) {
      assert (p + [c])[1..] == p[1..] + [c];
    }
  }

  lemma ChildrenStep(n: Node)
    ensures (exists c :: Has(n, [] + [c])) <==> n.children != map[]
  {
    forall c ensures Has(n, [] + [c]) <==> c in n.children {
      assert ([] + [c])[1..] == [];
    }
    if n.children != map[] { var c :| c in n.children; assert Has(n, [] + [c]); }
    if c :| Has(n, [] + [c]) { assert c in n.children; }
  }

  /** The tags after an insertion: the package is added on the way to each new file, and at
      the older nodes below a directory on whose place a new file was put. */
  lemma {:induction false} TagsAfterInsert(n: Node, g: Package, paths: seq<Path>, q: Path)
    ensures Tags(Inserted(n, g, paths), q) ==
      Tags(n, q) + if Above(q, paths) || (Has(n, q) && BelowDirectory(n, paths, q)) then {g} else {}
  {
    var dirs := DirectoryInserts(n, paths);
    InsertAllAt(n, paths, g, q);
    PropagateAllAt(InsertAll(n, paths, g), dirs, g, q);
    forall d ensures d in dirs <==> d in paths && IsDirectory(n, d) {
      DirectoryInsertsAmong(n, paths, d);
      CheckMeans(n, d);
    }
  }

  lemma {:induction false} InsertAllTagged(n: Node, paths: seq<Path>, g: Package)
    requires WellTagged(n)
    ensures WellTagged(InsertAll(n, paths, g))
    decreases |paths|
  {
    if paths != [] {
      InsertTagged(n, paths[0], g);
      InsertAllTagged(Insert(n, paths[0], g), paths[1..], g);
    }
  }

  lemma {:induction false} PropagateAllTagged(n: Node, dirs: seq<Path>, g: Package)
    requires WellTagged(n) && forall d :: d in dirs ==> g in Owners(n, d)
    ensures WellTagged(PropagateAll(n, dirs, g))
    decreases |dirs|
  {
    if dirs != [] {
      TagsBelow(n, dirs[0]);
      PropagateAtTagged(n, dirs[0], g);
      forall d | d in dirs[1..] ensures g in Owners(PropagateAt(n, dirs[0], g), d) {
        PropagateAtEffect(n, dirs[0], g, d);
      }
      PropagateAllTagged(PropagateAt(n, dirs[0], g), dirs[1..], g);
    }
  }

  lemma InsertedTagged(n: Node, g: Package, paths: seq<Path>)
    requires WellTagged(n)
    ensures WellTagged(Inserted(n, g, paths))
  {
    InsertAllTagged(n, paths, g);
    forall d | d in DirectoryInserts(n, paths) ensures g in Owners(InsertAll(n, paths, g), d) {
      DirectoryInsertsAmong(n, paths, d);
      InsertAllAt(n, paths, g, d);
    }
    PropagateAllTagged(InsertAll(n, paths, g), DirectoryInserts(n, paths), g);
  }

  lemma InsertKeepsInvariant(n: Node, packages: seq<Package>, g: Package, paths: seq<Path>)
    requires Invariant(n, packages)
    ensures Invariant(Inserted(n, g, paths), Register(packages, g))
  {
    var m := Inserted(n, g, paths);
    InsertedTagged(n, g, paths);
    InsertedAt(n, g, paths, []);
    forall q, h | h in Tags(m, q) ensures OwnsNear(m, q, h) {
      InsertedAt(n, g, paths, q);
      var f :| (h in Owners(n, f) || (h == g && f in paths)) && Comparable(f, q) && (q != [] ==> f != []);
      InsertedAt(n, g, paths, f);
    }
  }

  // ---------------------------------------------------------------- Conflicts

  /** Some file owned before, other than the root, is an ancestor, a descendant or equal. */
  ghost predicate Clashes(n: Node, p: Path) {
    exists f :: f != [] && Owners(n, f) != {} && Comparable(f, p)
  }

  /** The conflict walk reports exactly the paths comparable with an owned file, even
      where pruning left nodes that only a tag keeps alive. */
  lemma CheckIffClashes(n: Node, packages: seq<Package>, p: Path)
    requires Invariant(n, packages)
    ensures Check(n, p) != NoConflict <==> p != [] && Clashes(n, p)
  {
    if p != [] {
      CheckFinds(n, p);
      if Clashes(n, p) {
        var f :| f != [] && Owners(n, f) != {} && Comparable(f, p);
        CheckSees(n, p, f);
      }
      if Check(n, p) == DirectoryConflict {
        var c :| Has(n, p + [c]);
        TagsBelow(n, p + [c]);
        var g :| g in Tags(n, p + [c]);
        assert OwnsNear(n, p + [c], g);
        var f :| g in Owners(n, f) && Comparable(f, p + [c]) && f != [];
        assert Comparable(f, p);
      }
    }
  }

  /** What a reported conflict rests on. */
  lemma {:induction false} CheckFinds(n: Node, p: Path)
    requires p != []
    ensures Check(n, p) == FileConflict ==> exists f :: f != [] && Owners(n, f) != {} && f <= p
    ensures Check(n, p) == DirectoryConflict ==> Owners(n, p) == {} && exists c :: Has(n, p + [c])
    decreases |p|
  {
    if p[0] in n.children {
      var m, r := n.children[p[0]], p[1..];
      assert p == [p[0]] + r;
      BelowChild(n, p[0], r);
      if m.terminals != {} {
        BelowChild(n, p[0], []);
        assert [p[0]] + [] <= p;
      } else if |p| > 1 {
        CheckFinds(m, r);
        if Check(n, p) == FileConflict {
          var f :| f != [] && Owners(m, f) != {} && f <= r;
          BelowChild(n, p[0], f);
          assert [p[0]] + f <= p;
        } else if Check(n, p) == DirectoryConflict {
          var c :| Has(m, r + [c]);
          BelowChild(n, p[0], r + [c]);
          assert p + [c] == [p[0]] + (r + [c]);
        }
      } else if m.children != map[] {
        var c :| c in m.children;
        assert r == [];
        assert (p + [c])[1..] == [c] && [c][1..] == [];
        assert Has(n, p + [c]);
      }
    }
  }

  /** The walk does not miss a comparable file. */
  lemma {:induction false} CheckSees(n: Node, p: Path, f: Path)
    requires p != [] && f != [] && Owners(n, f) != {} && Comparable(f, p)
    ensures Check(n, p) != NoConflict
    decreases |p|
  {
    PrefixStep(f, p);
    PrefixStep(p, f);
    var m := n.children[p[0]];
    assert f == [p[0]] + f[1..];
    BelowChild(n, p[0], f[1..]);
    if m.terminals == {} {
      if |p| > 1 { CheckSees(m, p[1..], f[1..]); } else { assert f[1] in m.children; }
    }
  }

  // ---------------------------------------------------------------- Unregistering

  function Without(packages: seq<Package>, g: Package): seq<Package> {
    if packages == [] then []
    else if packages[0] == g then packages[1..]
    else [packages[0]] + Without(packages[1..], g)
  }

  /** The packages after g, of lower priority. */
  function After(packages: seq<Package>, g: Package): seq<Package> {
    if packages == [] then []
    else if packages[0] == g then packages[1..]
    else After(packages[1..], g)
  }

  function Removed(n: Node, g: Package): Node { Prune(Remove(n, g)) }

  lemma {:induction false} WithoutSplits(packages: seq<Package>, g: Package) returns (before: seq<Package>)
    requires Distinct(packages) && g in packages
    ensures packages == before + [g] + After(packages, g)
    ensures Without(packages, g) == before + After(packages, g)
    ensures g !in before && g !in After(packages, g)
  {
    var first, rest := packages[0], packages[1..];
    assert packages == [first] + rest;
    if first == g {
      before := [];
      FirstOnlyOnce(packages);
      assert [] + [g] + rest == packages && [] + rest == rest;
    } else {
      DistinctTail(packages);
      var early := WithoutSplits(rest, g);
      before := [first] + early;
      SplitLater(first, early, g, After(rest, g));
    }
  }

  lemma SplitLater(first: Package, early: seq<Package>, g: Package, after: seq<Package>)
    ensures [first] + (early + [g] + after) == [first] + early + [g] + after
    ensures [first] + (early + after) == [first] + early + after
  {
    AppendAssociates([first], early + [g], after);
    AppendAssociates([first], early, [g]);
    AppendAssociates([first], early, after);
  }

  lemma FirstOnlyOnce(packages: seq<Package>)
    requires Distinct(packages) && packages != []
    ensures packages[0] !in packages[1..]
  {
    forall i | 0 <= i < |packages[1..]| ensures packages[1..][i] != packages[0] {
      assert packages[1..][i] == packages[i + 1];
    }
  }

  lemma DistinctTail(packages: seq<Package>)
    requires Distinct(packages) && packages != []
    ensures Distinct(packages[1..])
  {
  }

  lemma RemovedAt(n: Node, g: Package, q: Path)
    ensures Tags(Removed(n, g), q) == Tags(n, q) - {g}
    ensures Owners(Removed(n, g), q) == Owners(n, q) - {g}
  {
    RemoveEffect(n, g, q);
    PruneEffect(Remove(n, g), q);
  }

  lemma DistinctWithout(packages: seq<Package>, before: seq<Package>, after: seq<Package>, g: Package)
    requires Distinct(packages) && packages == before + [g] + after
    ensures Distinct(before + after)
  {
    var rest := before + after;
    forall i, j | 0 <= i < j < |rest| ensures rest[i] != rest[j] {
      var k, l := if i < |before| then i else i + 1, if j < |before| then j else j + 1;
      assert packages[k] == rest[i] && packages[l] == rest[j];
    }
  }

  lemma RemoveKeepsInvariant(n: Node, packages: seq<Package>, g: Package)
    requires Invariant(n, packages) && g in packages
    ensures Invariant(Removed(n, g), Without(packages, g))
  {
    var m, rest := Removed(n, g), Without(packages, g);
    var before := WithoutSplits(packages, g);
    RemovePruneTagged(n, g);
    DistinctWithout(packages, before, After(packages, g), g);
    forall q, h | h in Tags(m, q) ensures OwnsNear(m, q, h) {
      RemovedAt(n, g, q);
      assert OwnsNear(n, q, h);
      var f :| h in Owners(n, f) && Comparable(f, q) && (q != [] ==> f != []);
      RemovedAt(n, g, f);
    }
  }

  /** Inserting a package that was not registered and unregistering it again restores
      the trie and the order exactly. */
  lemma InsertThenUnregister(n: Node, packages: seq<Package>, g: Package, paths: seq<Path>)
    requires Invariant(n, packages) && g !in packages
    ensures Removed(Inserted(n, g, paths), g) == n
    ensures Without(Register(packages, g), g) == packages
  {
    var m := Inserted(n, g, paths);
    forall q
      ensures Tags(Remove(m, g), q) == Tags(n, q) && Owners(Remove(m, g), q) == Owners(n, q)
      ensures Has(n, q) ==> Has(Remove(m, g), q)
    {
      TagsBelow(n, q);
      InsertedAt(n, g, paths, q);
      RemoveEffect(m, g, q);
    }
    PruneToBase(Remove(m, g), n);
    WithoutLast(packages, g);
  }

  lemma {:induction false} WithoutLast(packages: seq<Package>, g: Package)
    requires g !in packages
    ensures Without(packages + [g], g) == packages
  {
    if packages != [] {
      assert (packages + [g])[1..] == packages[1..] + [g];
      WithoutLast(packages[1..], g);
    } else {
      assert (packages + [g])[1..] == [];
    }
  }

  /** The walk of unregister_package: leave a branch the package does not touch, otherwise
      restore the first candidate owning the node. */
  predicate Restores(n: Node, g: Package, candidates: seq<Package>, under: bool, p: Path, c: Package)
    decreases |p|
  {
    && (under || g in n.terminals || g in n.prefixes)
    && if p == [] then FirstIn(candidates, n.terminals) == Some(c)
       else p[0] in n.children && Restores(n.children[p[0]], g, candidates, under || g in n.terminals, p[1..], c)
  }

  lemma {:induction false} RestoresFlat(n: Node, g: Package, candidates: seq<Package>, under: bool, p: Path, c: Package)
    requires WellTagged(n)
    ensures Restores(n, g, candidates, under, p, c) <==>
      && FirstIn(candidates, Owners(n, p)) == Some(c)
      && (under || g in Tags(n, p) || exists f :: f <= p && g in Owners(n, f))
    decreases |p|
  {
    if p == [] {
      if f: Path :| f <= p && g in Owners(n, f) { assert f == []; }
    } else if p[0] in n.children {
      var m, r := n.children[p[0]], p[1..];
      assert p == [p[0]] + r;
      RestoresFlat(m, g, candidates, under || g in n.terminals, r, c);
      TagsBelow(n, p);
      if exists f :: f <= r && g in Owners(m, f) {
        var f :| f <= r && g in Owners(m, f);
        BelowChild(n, p[0], f);
        TagsBelow(n, [p[0]] + f);
        assert [p[0]] + f <= p;
      }
      if exists f :: f <= p && g in Owners(n, f) {
        var f :| f <= p && g in Owners(n, f);
        TagsBelow(n, f);
        if f != [] {
          PrefixStep(f, p);
          assert f == [p[0]] + f[1..];
          BelowChild(n, p[0], f[1..]);
        }
      }
      if g in n.terminals { assert [] <= p && g in Owners(n, []); }
    }
  }

  /** The restored pairs are exactly (q, c) where the removed package owns a file
      comparable with q and c is the first package after it owning q: leaving untouched
      branches early loses none. */
  lemma RestoresExactly(n: Node, packages: seq<Package>, g: Package, p: Path, c: Package)
    requires Invariant(n, packages)
    ensures Restores(n, g, After(packages, g), false, p, c) <==>
      && (exists f :: g in Owners(n, f) && Comparable(f, p))
      && FirstIn(After(packages, g), Owners(n, p)) == Some(c)
  {
    RestoresFlat(n, g, After(packages, g), false, p, c);
    if g in Tags(n, p) { assert OwnsNear(n, p, g); }
    if f: Path :| g in Owners(n, f) && Comparable(f, p) {
      if p <= f {
        TagsBelow(n, f);
        TagsShrink(n, p, f);
      }
    }
  }

  /** How taking g out of the order and out of the tags changes the best tag. */
  lemma FirstAfterRemoval(packages: seq<Package>, g: Package, s: set<Package>)
    requires Distinct(packages) && g in packages
    ensures FirstIn(Without(packages, g), s - {g}) ==
      if FirstIn(packages, s) == Some(g) then FirstIn(After(packages, g), s) else FirstIn(packages, s)
    ensures
      var best := FirstIn(packages, s);
      best.Some? && best != Some(g) && best.value in After(packages, g) ==> FirstIn(After(packages, g), s) == best
  {
    var before := WithoutSplits(packages, g);
    BeforeIsNotAfter(packages, before, g, After(packages, g));
    FirstInAround(before, g, After(packages, g), s);
  }

  lemma BeforeIsNotAfter(packages: seq<Package>, before: seq<Package>, g: Package, after: seq<Package>)
    requires Distinct(packages) && packages == before + [g] + after
    ensures forall x :: x in before ==> x !in after
  {
    forall i, j | 0 <= i < |before| && 0 <= j < |after| ensures before[i] != after[j] {
      assert packages[i] == before[i] && packages[|before| + 1 + j] == after[j];
    }
  }

  lemma {:induction false} FirstInAround(before: seq<Package>, g: Package, after: seq<Package>, s: set<Package>)
    requires g !in before && g !in after && forall x :: x in before ==> x !in after
    ensures FirstIn(before + after, s - {g}) ==
      if FirstIn(before + [g] + after, s) == Some(g) then FirstIn(after, s) else FirstIn(before + [g] + after, s)
    ensures
      var best := FirstIn(before + [g] + after, s);
      best.Some? && best != Some(g) && best.value in after ==> FirstIn(after, s) == best
  {
    FirstInConcat(before, after, s - {g});
    FirstInWithout(before, s, g);
    FirstInWithout(after, s, g);
    FirstInConcat(before + [g], after, s);
    FirstInConcat(before, [g], s);
    assert FirstIn([g], s) == if g in s then Some(g) else None;
  }

  /** Nothing that becomes visible is forgotten. */
  lemma NewlyVisibleIsRestored(n: Node, packages: seq<Package>, g: Package, p: Path, c: Package)
    requires Invariant(n, packages) && g in packages
    requires Visible(Removed(n, g), Without(packages, g), p, c) && !Visible(n, packages, p, c)
    ensures Restores(n, g, After(packages, g), false, p, c)
  {
    var m, rest, after := Removed(n, g), Without(packages, g), After(packages, g);
    RemoveKeepsInvariant(n, packages, g);
    VisibleIffTopmost(m, rest, p, c);
    VisibleIffTopmost(n, packages, p, c);
    RemovedAt(n, g, p);
    TagsBelow(n, p);
    FirstAfterRemoval(packages, g, Tags(n, p));
    RestoresFlat(n, g, after, false, p, c);
    if FirstIn(packages, Tags(n, p)) == Some(g) {
      FirstInSubset(after, Tags(n, p), Owners(n, p));
    } else {
      var q, h :| q < p && LocalFile(n, packages, q, h);
      RemovedAt(n, g, q);
      FirstAfterRemoval(packages, g, Tags(n, q));
      assert h == g by {
        if h != g { assert LocalFile(m, rest, q, h); }
      }
      TagsShrink(n, q, p);
      ShadowedIsAfter(packages, g, Tags(n, q), c);
      BestOfLowerIsAfter(packages, g, Tags(n, p), c);
      FirstInSubset(after, Tags(n, p), Owners(n, p));
    }
  }

  lemma ShadowedIsAfter(packages: seq<Package>, g: Package, s: set<Package>, c: Package)
    requires Distinct(packages) && FirstIn(packages, s) == Some(g) && c in s && c in packages && c != g
    ensures c in After(packages, g)
  {
    var before := WithoutSplits(packages, g);
    FirstInConcat(before + [g], After(packages, g), s);
    FirstInConcat(before, [g], s);
  }

  lemma BestOfLowerIsAfter(packages: seq<Package>, g: Package, s: set<Package>, c: Package)
    requires Distinct(packages) && g in packages && FirstIn(packages, s) == Some(c) && c != g
    requires c in After(packages, g)
    ensures FirstIn(After(packages, g), s) == Some(c)
  {
    FirstAfterRemoval(packages, g, s);
  }

  // ---------------------------------------------------------------- Runs

  datatype Operation =
    | InsertPackage(package: Package, paths: seq<Path>)
    | UnregisterPackage(package: Package)
    | Reprioritize(order: seq<Package>)

  /** The source's own test that an order is a mere reordering; it panics otherwise. */
  predicate IsReordering(packages: seq<Package>, order: seq<Package>) {
    |packages| == |order| && (set g | g in packages) == (set g | g in order)
  }

  /** New orders are given in increasing priority and stored in decreasing priority. */
  function Reverse<T>(s: seq<T>): (r: seq<T>)
    ensures |r| == |s| && forall i :: 0 <= i < |s| ==> r[i] == s[|s| - 1 - i]
  {
    if s == [] then [] else Reverse(s[1..]) + [s[0]]
  }

  ghost predicate Step(n: Node, packages: seq<Package>, op: Operation, m: Node, after: seq<Package>) {
    match op
    case InsertPackage(g, paths) => m == Inserted(n, g, paths) && after == Register(packages, g)
    case UnregisterPackage(g) =>
      if g in packages then m == Removed(n, g) && after == Without(packages, g) else m == n && after == packages
    case Reprioritize(order) => IsReordering(packages, order) && m == n && after == Reverse(order)
  }

  ghost predicate Reachable(n: Node, packages: seq<Package>, ops: seq<Operation>)
    decreases |ops|
  {
    if ops == [] then n == EMPTY && packages == []
    else
      var earlier, op := ops[..|ops| - 1], ops[|ops| - 1];
      exists m, before :: Reachable(m, before, earlier) && Step(m, before, op, n, packages)
  }

  lemma {:induction false} SetSize(s: seq<Package>)
    ensures |set g | g in s| <= |s|
    ensures |set g | g in s| == |s| ==> Distinct(s)
  {
    var all := set g | g in s;
    if s != [] {
      var rest := set g | g in s[1..];
      SetSize(s[1..]);
      assert all == rest + {s[0]};
      if |all| == |s| {
        assert s[0] !in rest by { assert s[0] in rest ==> all == rest; }
        forall i, j | 0 <= i < j < |s| ensures s[i] != s[j] {
          if i == 0 { assert s[j] in s[1..] by { assert s[1..][j - 1] == s[j]; } }
          else { assert s[1..][i - 1] == s[i] && s[1..][j - 1] == s[j]; }
        }
      }
    }
  }

  lemma {:induction false} DistinctSize(s: seq<Package>)
    requires Distinct(s)
    ensures |set g | g in s| == |s|
  {
    if s != [] {
      DistinctSize(s[1..]);
      assert (set g | g in s) == (set g | g in s[1..]) + {s[0]};
    }
  }

  lemma ReorderKeepsInvariant(n: Node, packages: seq<Package>, order: seq<Package>)
    requires Invariant(n, packages) && IsReordering(packages, order)
    ensures Invariant(n, Reverse(order)) && Distinct(order)
  {
    DistinctSize(packages);
    SetSize(order);
    var r := Reverse(order);
    var a, b := set x | x in packages, set x | x in order;
    assert a == b;
    forall g | g in n.prefixes ensures g in r {
      assert g in a && g in b;
      var i :| 0 <= i < |order| && order[i] == g;
      assert r[|order| - 1 - i] == g;
    }
  }

  /** The test accepts exactly the permutations of the packages. */
  lemma {:induction false} ReorderingIff(packages: seq<Package>, order: seq<Package>)
    requires Distinct(packages)
    ensures IsReordering(packages, order) <==> multiset(order) == multiset(packages)
  {
    if IsReordering(packages, order) {
      DistinctSize(packages);
      SetSize(order);
      forall g ensures multiset(order)[g] == multiset(packages)[g] {
        CountOfDistinct(packages, g);
        CountOfDistinct(order, g);
        SameElements(packages, order, g);
      }
    }
    if multiset(order) == multiset(packages) { PermutationHasSameElements(packages, order); }
  }

  lemma PermutationHasSameElements(a: seq<Package>, b: seq<Package>)
    requires multiset(a) == multiset(b)
    ensures |a| == |b| && (set x | x in a) == (set x | x in b)
  {
    assert |multiset(a)| == |a| && |multiset(b)| == |b|;
    forall g ensures g in a <==> g in b {
      assert g in a <==> g in multiset(a);
      assert g in b <==> g in multiset(b);
    }
  }

  lemma SameElements(a: seq<Package>, b: seq<Package>, g: Package)
    requires (set x | x in a) == (set x | x in b)
    ensures g in a <==> g in b
  {
    var s, t := set x | x in a, set x | x in b;
    assert g in a <==> g in s;
    assert g in b <==> g in t;
  }

  lemma {:induction false} CountOfDistinct(s: seq<Package>, g: Package)
    requires Distinct(s)
    ensures multiset(s)[g] == if g in s then 1 else 0
  {
    if s != [] {
      DistinctTail(s);
      FirstOnlyOnce(s);
      CountOfDistinct(s[1..], g);
      assert s == [s[0]] + s[1..];
    }
  }

  /** Every run of insertions, removals and reorderings keeps the invariant. */
  lemma {:induction false} RunsKeepInvariant(n: Node, packages: seq<Package>, ops: seq<Operation>)
    requires Reachable(n, packages, ops)
    ensures Invariant(n, packages)
    decreases |ops|
  {
    if ops != [] {
      var op := ops[|ops| - 1];
      var m, before :| Reachable(m, before, ops[..|ops| - 1]) && Step(m, before, op, n, packages);
      RunsKeepInvariant(m, before, ops[..|ops| - 1]);
      match op {
        case InsertPackage(g, paths) => InsertKeepsInvariant(m, before, g, paths);
        case UnregisterPackage(g) => if g in before { RemoveKeepsInvariant(m, before, g); }
        case Reprioritize(order) => ReorderKeepsInvariant(m, before, order);
      }
    } else {
      assert forall q :: Tags(EMPTY, q) == {};
    }
  }
}
