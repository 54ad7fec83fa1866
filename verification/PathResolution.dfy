/** The resolver object of crates/path_resolver/src/lib.rs. */
module PathResolution {
  import opened Orders
  import opened PathTrie
  import opened ClobberView
  import opened ResolverState
  import opened TrieWalks
  import opened InsertedView

  datatype ClobberedPath = ClobberedPath(winner: Package, losers: set<Package>)

  predicate PathLess(a: Path, b: Path) { LexLess(StringLess, a, b) }

  lemma PathOrder()
    ensures TotalOrder(PathLess)
  {
    StringOrder();
    forall a, b ensures !PathLess(a, a) && (PathLess(a, b) || a == b || PathLess(b, a)) {
      LexTrichotomy(StringLess, a, b);
    }
    forall a, b, c | PathLess(a, b) && PathLess(b, c) ensures PathLess(a, c) {
      LexTransitive(StringLess, a, b, c);
    }
  }

  /** The check at the node of the last component, when the walk reaches it. */
  function Judge(found: Option<Node>): Verdict {
    if found.None? then NoConflict
    else if found.value.terminals != {} then FileConflict
    else if found.value.children != map[] then DirectoryConflict
    else NoConflict
  }

  /** Walk one new path down the trie and name the conflict it meets first. */
  method CheckPath(root: Node, p: Path) returns (verdict: Verdict)
    ensures verdict == Check(root, p)
  {
    var current := root;
    var found: Option<Node> := None;
    var k := 0;
    while k < |p|
      invariant 0 <= k <= |p|
      invariant k < |p| ==> found == None && Check(root, p) == Check(current, p[k..])
      invariant k == |p| ==> Check(root, p) == Judge(found)
    {
      var isLast := k + 1 == |p|;
      assert p[k..][1..] == p[k + 1..];
      if p[k] !in current.children { return NoConflict; }
      var node := current.children[p[k]];
      if !isLast && node.terminals != {} { return FileConflict; }
      current := node;
      if isLast { found := Some(node); }
      k := k + 1;
    }
    verdict := Judge(found);
  }

  /** Check all new paths against the trie as it was before the call. */
  method FindInsertConflicts(root: Node, paths: seq<Path>) returns (found: set<Path>, dirs: seq<Path>)
    ensures forall p :: p in found <==> p in paths && Check(root, p) != NoConflict
    ensures dirs == DirectoryInserts(root, paths)
  {
    found, dirs := {}, [];
    for i := 0 to |paths|
      invariant forall p :: p in found <==> p in paths[..i] && Check(root, p) != NoConflict
      invariant dirs + DirectoryInserts(root, paths[i..]) == DirectoryInserts(root, paths)
    {
      var verdict := CheckPath(root, paths[i]);
      if verdict != NoConflict { found := found + {paths[i]}; }
      assert paths[i..][1..] == paths[i + 1..];
      ghost var later := DirectoryInserts(root, paths[i + 1..]);
      assert dirs + ([paths[i]] + later) == (dirs + [paths[i]]) + later;
      if verdict == DirectoryConflict { dirs := dirs + [paths[i]]; }
    }
    assert paths[|paths|..] == [] && paths[..|paths|] == paths;
  }

  /** Follow a path as far as it exists. */
  method GetNode(root: Node, p: Path) returns (found: Option<Node>)
    ensures found == if Has(root, p) then Some(NodeAt(root, p)) else None
  {
    var current := root;
    for k := 0 to |p|
      invariant Has(root, p) == Has(current, p[k..])
      invariant Has(root, p) ==> NodeAt(root, p) == NodeAt(current, p[k..])
    {
      assert p[k..][1..] == p[k + 1..];
      if p[k] !in current.children { return None; }
      current := current.children[p[k]];
    }
    return Some(current);
  }

  /** Several packages own a file exactly at p. */
  ghost predicate Contested(n: Node, p: Path) { |Owners(n, p)| > 1 }

  /** The owners at an absolute path q, seen from the node n at path cur. */
  ghost function OwnersFrom(n: Node, cur: Path, q: Path): set<Package> {
    if cur <= q then Owners(n, q[|cur|..]) else {}
  }

  /** Below n, the owners are those seen from the child on the way. */
  lemma OwnersFromChild(n: Node, cur: Path, q: Path)
    requires q != cur
    ensures OwnersFrom(n, cur, q) ==
      if cur < q && q[|cur|] in n.children then OwnersFrom(n.children[q[|cur|]], cur + [q[|cur|]], q) else {}
  {
    if cur < q {
      var c := q[|cur|];
      assert cur + [c] <= q;
      assert q[|cur|..] == [c] + q[|cur| + 1..];
      if c in n.children { BelowChild(n, c, q[|cur| + 1..]); }
    }
  }

  lemma OwnersFromHere(n: Node, cur: Path)
    ensures OwnersFrom(n, cur, cur) == n.terminals
  {
    assert cur[|cur|..] == [];
  }

  type Conflicts = seq<(Path, set<Package>)>

  ghost predicate OncePerPath(out: Conflicts) {
    forall i, j :: 0 <= i < j < |out| ==> out[i].0 != out[j].0
  }

  lemma OnceAppended(out: Conflicts, more: Conflicts)
    requires OncePerPath(out) && OncePerPath(more)
    requires forall q, s, t :: (q, s) in out ==> (q, t) !in more
    ensures OncePerPath(out + more)
  {
    forall i, j | 0 <= i < |out| && 0 <= j < |more| ensures out[i].0 != more[j].0 {
      assert (out[i].0, out[i].1) in out && (more[j].0, more[j].1) in more;
    }
  }

  method FindConflictsFrom(n: Node, cur: Path) returns (out: Conflicts)
    ensures OncePerPath(out)
    ensures forall q, s :: (q, s) in out <==> s == OwnersFrom(n, cur, q) && |s| > 1
    decreases n
  {
    out := [];
    if |n.terminals| > 1 { out := [(cur, n.terminals)]; }
    OwnersFromHere(n, cur);
    forall q | q != cur { OwnersFromChild(n, cur, q); }
    var rest := n.children.Keys;
    while rest != {}
      invariant rest <= n.children.Keys
      invariant OncePerPath(out)
      invariant forall q, s :: (q, s) in out <==>
        s == OwnersFrom(n, cur, q) && |s| > 1 && (q == cur || q[|cur|] !in rest)
    {
      var c :| c in rest;
      var more := FindConflictsFrom(n.children[c], cur + [c]);
      forall q ensures OwnersFrom(n.children[c], cur + [c], q) ==
        if q != cur && cur < q && q[|cur|] == c then OwnersFrom(n, cur, q) else {} {}
      OnceAppended(out, more);
      out := out + more;
      rest := rest - {c};
    }
  }

  /** What is recorded for one clobbered path. */
  ghost function Clobbered(owners: set<Package>, packages: seq<Package>): ClobberedPath
    requires FirstIn(packages, owners).Some?
  {
    var winner := FirstIn(packages, owners).value;
    ClobberedPath(winner, owners - {winner})
  }

  /** The record of a path with these owners, when there are several. */
  ghost predicate Records(out: map<Path, ClobberedPath>, q: Path, owners: set<Package>, packages: seq<Package>) {
    && (q in out <==> |owners| > 1)
    && (q in out ==> FirstIn(packages, owners).Some? && out[q] == Clobbered(owners, packages))
  }

  method RecordHere(cur: Path, terminals: set<Package>, packages: seq<Package>) returns (out: map<Path, ClobberedPath>)
    requires Covers(packages, terminals)
    ensures out.Keys <= {cur} && Records(out, cur, terminals, packages)
  {
    out := map[];
    var winner := FirstOwner(packages, terminals);
    if winner.Some? {
      var others := terminals - {winner.value};
      assert terminals == others + {winner.value};
      if others != {} { out := map[cur := ClobberedPath(winner.value, others)]; }
    } else {
      assert terminals == {};
    }
  }

  method CollectClobberedFrom(n: Node, cur: Path, packages: seq<Package>) returns (out: map<Path, ClobberedPath>)
    requires WellTagged(n) && Covers(packages, n.prefixes)
    ensures forall q :: Records(out, q, OwnersFrom(n, cur, q), packages)
    decreases n
  {
    out := RecordHere(cur, n.terminals, packages);
    OwnersFromHere(n, cur);
    forall q | q != cur { OwnersFromChild(n, cur, q); }
    var rest := n.children.Keys;
    while rest != {}
      invariant rest <= n.children.Keys
      invariant forall q :: Records(out, q, if q == cur || !BranchIn(q, cur, rest) then OwnersFrom(n, cur, q) else {}, packages)
    {
      var c :| c in rest;
      var more := CollectClobberedFrom(n.children[c], cur + [c], packages);
      rest := rest - {c};
      out := out + more;
      forall q ensures Records(out, q, if q == cur || !BranchIn(q, cur, rest) then OwnersFrom(n, cur, q) else {}, packages) {
        assert Records(more, q, OwnersFrom(n.children[c], cur + [c], q), packages);
        if q != cur { OwnersFromChild(n, cur, q); }
      }
    }
  }

  /** q lies below cur, in one of the named branches. */
  ghost predicate BranchIn(q: Path, cur: Path, names: set<string>) { cur < q && q[|cur|] in names }

  /** The change sets, parents first, take the old view to the new one: restored is what
      becomes visible; what is hidden stays invisible, and either was visible or lay strictly
      below a visible file. */
  ghost predicate TurnsOldIntoNew(n: Node, was: seq<Package>, now: seq<Package>, to: Found, from: Found) {
    && ParentsFirst(to) && ParentsFirst(from)
    && (forall p, g :: (p, g) in from <==> Visible(n, now, p, g) && !Visible(n, was, p, g))
    && (forall p, g :: Visible(n, now, p, g) <==> (Visible(n, was, p, g) && (p, g) !in to) || (p, g) in from)
    && (forall p, g :: (p, g) in to ==> g in Owners(n, p) && !Visible(n, now, p, g))
    && (forall p, g :: (p, g) in to ==> Visible(n, was, p, g) || ShadowedBy(n, was, p))
  }

  ghost predicate ShadowedBy(n: Node, order: seq<Package>, p: Path) {
    exists q, h :: q < p && Visible(n, order, q, h)
  }

  lemma ChangesTurnOldIntoNew(n: Node, was: seq<Package>, now: seq<Package>, to: Found, from: Found)
    requires WellTagged(n) && Covers(was, n.prefixes) && Covers(now, n.prefixes)
    requires Lists(to, [], ToClobbers(was, now), n) && Lists(from, [], FromClobbers(was, now), n)
    ensures forall p, g :: (p, g) in to <==> DiffTo(n, was, now, p, g)
    ensures TurnsOldIntoNew(n, was, now, to, from)
  {
    forall p, g
      ensures (p, g) in to <==> DiffTo(n, was, now, p, g)
      ensures (p, g) in from <==> Visible(n, now, p, g) && !Visible(n, was, p, g)
      ensures Visible(n, now, p, g) <==> (Visible(n, was, p, g) && (p, g) !in to) || (p, g) in from
      ensures (p, g) in to ==> g in Owners(n, p) && !Visible(n, now, p, g)
      ensures (p, g) in to ==> Visible(n, was, p, g) || ShadowedBy(n, was, p)
    {
      assert p[0..] == p;
      DiffTurnsOldIntoNew(n, was, now, p, g);
    }
  }

  /** The removed package owns a file comparable with p, and c is the first package after it
      owning p. */
  ghost predicate FallsBack(n: Node, packages: seq<Package>, g: Package, p: Path, c: Package) {
    && (exists f :: g in Owners(n, f) && Comparable(f, p))
    && FirstIn(After(packages, g), Owners(n, p)) == Some(c)
  }

  lemma RestoredFallBacks(n: Node, packages: seq<Package>, g: Package, from: Found)
    requires Invariant(n, packages) && g in packages
    requires Lists(from, [], NextCandidates(g, After(packages, g), false), n)
    ensures forall p, c :: (p, c) in from <==> FallsBack(n, packages, g, p, c)
    ensures forall p, c ::
      Visible(Removed(n, g), Without(packages, g), p, c) && !Visible(n, packages, p, c) ==> (p, c) in from
  {
    forall p, c
      ensures (p, c) in from <==> FallsBack(n, packages, g, p, c)
      ensures Visible(Removed(n, g), Without(packages, g), p, c) && !Visible(n, packages, p, c) ==> (p, c) in from
    {
      assert p[0..] == p;
      RestoresExactly(n, packages, g, p, c);
      if Visible(Removed(n, g), Without(packages, g), p, c) && !Visible(n, packages, p, c) {
        NewlyVisibleIsRestored(n, packages, g, p, c);
      }
    }
  }

  lemma RanksOfReverse(order: seq<Package>, rank: map<Package, nat>, decreasing: seq<Package>)
    requires Distinct(decreasing) && |order| == |decreasing|
    requires forall i :: 0 <= i < |order| ==> decreasing[i] == order[|order| - 1 - i]
    requires forall g :: g in rank <==> g in order
    requires forall g :: g in rank ==> rank[g] < |order| && order[rank[g]] == g
    ensures Ranks(rank, decreasing)
  {
    forall g ensures g in order <==> g in decreasing {
      if i :| 0 <= i < |order| && order[i] == g { assert decreasing[|order| - 1 - i] == g; }
    }
  }

  lemma NoFilesUnregistered(n: Node, packages: seq<Package>, g: Package)
    requires Invariant(n, packages) && g !in packages
    ensures forall q :: g !in Owners(n, q)
  {
    forall q ensures g !in Owners(n, q) {
      TagsBelow(n, q);
      TagsShrink(n, [], q);
    }
  }

  lemma OthersKeepOrder(packages: seq<Package>, g: Package)
    requires Distinct(packages) && g in packages
    ensures g !in Without(packages, g)
    ensures forall s :: g !in s ==> FirstIn(Without(packages, g), s) == FirstIn(packages, s)
  {
    var before := WithoutSplits(packages, g);
    forall s | g !in s ensures FirstIn(Without(packages, g), s) == FirstIn(packages, s) {
      FirstAfterRemoval(packages, g, s);
      assert s - {g} == s;
    }
  }

  class PathResolver {
    var root: Node
    var packages: seq<Package>

    ghost predicate Valid()
      reads this
    {
      Invariant(root, packages)
    }

    constructor ()
      ensures Valid() && root == EMPTY && packages == []
    {
      root, packages := EMPTY, [];
      new;
      assert forall q :: Tags(EMPTY, q) == {};
    }

    /** Insert the files of a package; report, sorted and once each, the new paths that are
        comparable with a file owned before. A new package comes after all others, so it
        takes no path from them; a registered one keeps its place. */
    method InsertPackage(g: Package, paths: seq<Path>) returns (conflicts: seq<Path>)
      requires Valid()
      modifies this
      ensures Valid()
      ensures root == Inserted(old(root), g, paths) && packages == Register(old(packages), g)
      ensures forall q :: Owners(root, q) == Owners(old(root), q) + if q in paths then {g} else {}
      ensures old(packages) <= packages && g in packages
      ensures |packages| == |old(packages)| + if g in old(packages) then 0 else 1
      ensures forall s :: FirstIn(old(packages), s).Some? ==> FirstIn(packages, s) == FirstIn(old(packages), s)
      ensures g !in old(packages) ==> ShowsInserted(old(root), old(packages), g, paths, root, packages)
      ensures Increasing(PathLess, conflicts)
      ensures forall p :: p in conflicts <==> p in paths && p != [] && Clashes(old(root), p)
    {
      ghost var n, before := root, packages;
      if g !in packages { packages := packages + [g]; }
      var found, dirs := FindInsertConflicts(root, paths);
      for i := 0 to |paths|
        invariant packages == Register(before, g)
        invariant InsertAll(root, paths[i..], g) == InsertAll(n, paths, g)
      {
        assert paths[i..][1..] == paths[i + 1..];
        root := Insert(root, paths[i], g);
      }
      assert root == InsertAll(n, paths, g) by { assert paths[|paths|..] == []; }
      assert dirs[0..] == dirs;
      for i := 0 to |dirs|
        invariant packages == Register(before, g)
        invariant PropagateAll(root, dirs[i..], g) == Inserted(n, g, paths)
      {
        assert dirs[i..][1..] == dirs[i + 1..];
        root := PropagateFrom(root, dirs[i], g);
      }
      InsertKeepsInvariant(n, before, g, paths);
      if g !in before { InsertShows(n, before, g, paths); }
      forall q { InsertedAt(n, g, paths, q); }
      forall s | FirstIn(before, s).Some? { FirstInConcat(before, [g], s); }
      PathOrder();
      conflicts := SortedElements(PathLess, found);
      forall p ensures p in found <==> p in paths && p != [] && Clashes(n, p) {
        CheckIffClashes(n, before, p);
      }
    }

    /** Remove a package; report what each of its paths falls back to. */
    method UnregisterPackage(g: Package) returns (to: Found, from: Found)
      requires Valid()
      modifies this
      ensures Valid() && to == [] && ParentsFirst(from)
      ensures g in old(packages) ==> root == Removed(old(root), g) && packages == Without(old(packages), g)
      ensures g !in old(packages) ==> root == old(root) && packages == old(packages) && from == []
      ensures g !in packages && forall q :: Owners(root, q) == Owners(old(root), q) - {g}
      ensures forall s :: g !in s ==> FirstIn(packages, s) == FirstIn(old(packages), s)
      ensures g in old(packages) ==>
        forall p, c :: (p, c) in from <==> FallsBack(old(root), old(packages), g, p, c)
      ensures forall p, c ::
        Visible(root, packages, p, c) && !Visible(old(root), old(packages), p, c) ==> (p, c) in from
    {
      to, from := [], [];
      if g !in packages {
        NoFilesUnregistered(root, packages, g);
        return;
      }
      ghost var n, before := root, packages;
      from := CollectNextCandidates(root, [], g, After(packages, g), false);
      packages := Without(packages, g);
      root := RemovePackage(root, g);
      var dead;
      root, dead := PruneBranches(root);
      RemoveKeepsInvariant(n, before, g);
      RestoredFallBacks(n, before, g, from);
      OthersKeepOrder(before, g);
      forall q { RemovedAt(n, g, q); }
    }

    /** Give the packages a new order, listed in increasing priority; report which files
        to hide and which to restore. */
    method ReprioritizePackages(newOrder: seq<Package>) returns (to: Found, from: Found)
      requires Valid() && IsReordering(packages, newOrder)
      modifies this
      ensures Valid() && root == old(root) && packages == Reverse(newOrder)
      ensures |packages| == |newOrder| && forall i :: 0 <= i < |newOrder| ==> packages[i] == newOrder[|newOrder| - 1 - i]
      ensures forall p, g :: (p, g) in to <==> DiffTo(root, old(packages), packages, p, g)
      ensures TurnsOldIntoNew(root, old(packages), packages, to, from)
    {
      ghost var was, now := packages, Reverse(newOrder);
      ReorderKeepsInvariant(root, packages, newOrder);
      var oldOrder := Reverse(packages);
      var oldRank := Rank(oldOrder);
      var newRank := Rank(newOrder);
      RanksOfReverse(oldOrder, oldRank, was);
      RanksOfReverse(newOrder, newRank, now);
      to, from := Diff(root, [], oldRank, newRank, was, now);
      packages := Reverse(newOrder);
      ChangesTurnOldIntoNew(root, was, now, to, from);
    }

    /** Which packages tag this prefix? */
    method PackagesForPrefix(p: Path) returns (found: Option<set<Package>>)
      ensures found == if Has(root, p) then Some(Tags(root, p)) else None
    {
      var node := GetNode(root, p);
      found := if node.Some? then Some(node.value.prefixes) else None;
    }

    /** Which packages own exactly this file? */
    method PackagesForExact(p: Path) returns (found: Option<set<Package>>)
      ensures found == if Has(root, p) then Some(Owners(root, p)) else None
    {
      var node := GetNode(root, p);
      found := if node.Some? then Some(node.value.terminals) else None;
    }

    /** The files with more than one owner, once each, with all their owners. */
    method FindConflicts() returns (out: Conflicts)
      ensures OncePerPath(out)
      ensures forall p, s :: (p, s) in out <==> Contested(root, p) && s == Owners(root, p)
    {
      out := FindConflictsFrom(root, []);
      forall p ensures OwnersFrom(root, [], p) == Owners(root, p) { assert p[0..] == p; }
    }

    /** The same files, each with its owner of highest priority as the winner and all the
        others as losers. */
    method CollectClobberedPaths() returns (out: map<Path, ClobberedPath>)
      requires Valid()
      ensures forall p :: p in out <==> Contested(root, p)
      ensures forall p :: p in out ==>
        && FirstIn(packages, Owners(root, p)) == Some(out[p].winner)
        && out[p].losers == Owners(root, p) - {out[p].winner} && out[p].losers != {}
    {
      out := CollectClobberedFrom(root, [], packages);
      forall p ensures Records(out, p, Owners(root, p), packages) {
        assert p[0..] == p;
        assert Records(out, p, OwnersFrom(root, [], p), packages);
      }
      forall p | p in out ensures out[p].losers != {} {
        assert Owners(root, p) == out[p].losers + {out[p].winner};
      }
    }
  }
}
