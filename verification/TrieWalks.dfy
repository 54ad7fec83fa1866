/** The recursive walks that push (path, package) pairs while visiting children in an
    arbitrary order (crates/path_resolver/src/lib.rs). */
module TrieWalks {
  import opened Orders
  import opened PathTrie
  import opened ClobberView
  import opened ResolverState

  type Found = seq<(Path, Package)>

  // ---------------------------------------------------------------- Ranks

  const USIZE_MAX: nat := 0xFFFF_FFFF_FFFF_FFFF

  /** A package without a rank counts as the best of all. */
  function RankOf(rank: map<Package, nat>, g: Package): nat {
    if g in rank then rank[g] else USIZE_MAX
  }

  /** Number the packages of an order given in increasing priority. */
  method Rank(order: seq<Package>) returns (rank: map<Package, nat>)
    ensures forall g :: g in rank <==> g in order
    ensures forall g :: g in rank ==> rank[g] < |order| && order[rank[g]] == g
  {
    rank := map[];
    for i := 0 to |order|
      invariant forall g :: g in rank <==> g in order[..i]
      invariant forall g :: g in rank ==> rank[g] < i && order[rank[g]] == g
    {
      rank := rank[order[i] := i];
    }
    assert order[..|order|] == order;
  }

  /** A tag of greatest rank, whatever the iteration order of the set. */
  method MaxByRank(tags: set<Package>, rank: map<Package, nat>) returns (best: Option<Package>)
    ensures best.None? <==> tags == {}
    ensures best.Some? ==> best.value in tags
    ensures best.Some? ==> forall g :: g in tags ==> RankOf(rank, g) <= RankOf(rank, best.value)
  {
    best := None;
    var rest := tags;
    while rest != {}
      invariant rest <= tags
      invariant best.None? <==> rest == tags
      invariant best.Some? ==> best.value in tags - rest
      invariant best.Some? ==> forall g :: g in tags - rest ==> RankOf(rank, g) <= RankOf(rank, best.value)
    {
      var g :| g in rest;
      if best.None? || RankOf(rank, best.value) <= RankOf(rank, g) { best := Some(g); }
      rest := rest - {g};
    }
  }

  /** The ranks number a list without repetition, given here in decreasing priority. */
  ghost predicate Ranks(rank: map<Package, nat>, order: seq<Package>) {
    && Distinct(order)
    && (forall g :: g in rank <==> g in order)
    && (forall g :: g in rank ==> rank[g] < |order| && order[|order| - 1 - rank[g]] == g)
  }

  lemma {:induction false} FirstInAtIndex(order: seq<Package>, s: set<Package>, i: nat)
    requires i < |order| && order[i] in s && forall j :: 0 <= j < i ==> order[j] !in s
    ensures FirstIn(order, s) == Some(order[i])
  {
    if i > 0 { FirstInAtIndex(order[1..], s, i - 1); }
  }

  /** On ranked tags the maximum is unique, the fallback rank is never used, and the
      winner is the first tag in priority order. */
  lemma GreatestRankIsFirst(rank: map<Package, nat>, order: seq<Package>, tags: set<Package>, best: Package)
    requires Ranks(rank, order) && Covers(order, tags) && best in tags
    requires forall g :: g in tags ==> RankOf(rank, g) <= RankOf(rank, best)
    ensures best in rank && FirstIn(order, tags) == Some(best)
  {
    var i := |order| - 1 - rank[best];
    forall j | 0 <= j < i ensures order[j] !in tags {
      var k := |order| - 1 - rank[order[j]];
      assert order[k] == order[j] && k == j;
    }
    FirstInAtIndex(order, tags, i);
  }

  method Winner(tags: set<Package>, rank: map<Package, nat>, ghost order: seq<Package>) returns (best: Option<Package>)
    requires Ranks(rank, order) && Covers(order, tags)
    ensures best == FirstIn(order, tags)
  {
    best := MaxByRank(tags, rank);
    if best.Some? { GreatestRankIsFirst(rank, order, tags, best.value); }
  }

  // ---------------------------------------------------------------- What a walk pushes

  datatype Walk =
    | RemovedSubtree(was: seq<Package>)
    | NewWinners(now: seq<Package>)
    | ToClobbers(was: seq<Package>, now: seq<Package>)
    | FromClobbers(was: seq<Package>, now: seq<Package>)
    | NextCandidates(removed: Package, candidates: seq<Package>, under: bool)

  ghost predicate Emits(w: Walk, n: Node, p: Path, g: Package) {
    match w
    case RemovedSubtree(was) => LocalFile(n, was, p, g)
    case NewWinners(now) => Visible(n, now, p, g)
    case ToClobbers(was, now) => DiffTo(n, was, now, p, g)
    case FromClobbers(was, now) => DiffFrom(n, was, now, p, g)
    case NextCandidates(removed, candidates, under) => Restores(n, removed, candidates, under, p, g)
  }

  /** Each path once, and never after a path below it. */
  ghost predicate ParentsFirst(found: Found) {
    forall i, j :: 0 <= i < j < |found| ==> !(found[j].0 <= found[i].0)
  }

  /** found lists what the walk emits from n, which is at path cur, parents first. */
  ghost predicate Lists(found: Found, cur: Path, w: Walk, n: Node) {
    && ParentsFirst(found)
    && forall q, g :: (q, g) in found <==> cur <= q && Emits(w, n, q[|cur|..], g)
  }

  /** found lists what the walk emits from the children of n named in done. */
  ghost predicate ListsBelow(found: Found, cur: Path, w: Walk, n: Node, done: set<string>) {
    && done <= n.children.Keys
    && ParentsFirst(found)
    && forall q, g :: (q, g) in found <==>
         cur < q && q[|cur|] in done && Emits(w, n.children[q[|cur|]], q[|cur| + 1..], g)
  }

  lemma AppendChild(found: Found, more: Found, cur: Path, w: Walk, n: Node, done: set<string>, c: string)
    requires ListsBelow(found, cur, w, n, done) && c in n.children && c !in done
    requires Lists(more, cur + [c], w, n.children[c])
    ensures ListsBelow(found + more, cur, w, n, done + {c})
  {
    forall q, g
      ensures (q, g) in found + more <==>
        cur < q && q[|cur|] in done + {c} && Emits(w, n.children[q[|cur|]], q[|cur| + 1..], g)
    {
      assert cur + [c] <= q <==> cur < q && q[|cur|] == c;
    }
    forall i, j | 0 <= i < |found| && 0 <= j < |more| ensures !(more[j].0 <= found[i].0) {
      assert (found[i].0, found[i].1) in found && (more[j].0, more[j].1) in more;
    }
  }

  /** Below n itself, the walk w emits what the walk v emits from the children of n. */
  ghost predicate Descends(w: Walk, n: Node, v: Walk) {
    forall p, g :: p != [] ==>
      (Emits(w, n, p, g) <==> p[0] in n.children && Emits(v, n.children[p[0]], p[1..], g))
  }

  lemma RemovedDescends(n: Node, was: seq<Package>)
    ensures Descends(RemovedSubtree(was), n, RemovedSubtree(was))
  {
  }

  lemma WinnersDescend(n: Node, now: seq<Package>)
    requires FirstIn(now, n.prefixes).Some? && !IsFile(n, now)
    ensures Descends(NewWinners(now), n, NewWinners(now))
  {
  }

  lemma DiffDescends(n: Node, was: seq<Package>, now: seq<Package>)
    requires !IsFile(n, was) && !IsFile(n, now)
    ensures Descends(ToClobbers(was, now), n, ToClobbers(was, now))
    ensures Descends(FromClobbers(was, now), n, FromClobbers(was, now))
  {
  }

  lemma CandidatesDescend(n: Node, g: Package, candidates: seq<Package>, under: bool)
    requires under || g in n.terminals || g in n.prefixes
    ensures Descends(NextCandidates(g, candidates, under), n, NextCandidates(g, candidates, under || g in n.terminals))
  {
  }

  /** What is pushed at the node itself, followed by what its children push. */
  lemma CloseNode(here: Found, below: Found, cur: Path, w: Walk, n: Node, v: Walk)
    requires ListsBelow(below, cur, v, n, n.children.Keys)
    requires |here| <= 1 && forall q, g :: (q, g) in here <==> q == cur && Emits(w, n, [], g)
    requires Descends(w, n, v)
    ensures Lists(here + below, cur, w, n)
  {
    forall q, g ensures (q, g) in here + below <==> cur <= q && Emits(w, n, q[|cur|..], g) {
      if cur < q { assert q[|cur|..][1..] == q[|cur| + 1..]; }
      assert cur <= q && !(cur < q) <==> q == cur;
    }
    forall i | 0 <= i < |below| ensures !(below[i].0 <= cur) {
      assert (below[i].0, below[i].1) in below;
    }
  }

  lemma ListsHere(here: Found, cur: Path, w: Walk, n: Node)
    requires |here| <= 1 && forall x :: x in here ==> x.0 == cur
    requires forall p, g :: Emits(w, n, p, g) <==> p == [] && (cur, g) in here
    ensures Lists(here, cur, w, n)
  {
    forall q, g ensures (q, g) in here <==> cur <= q && Emits(w, n, q[|cur|..], g) {
      assert cur <= q && q[|cur|..] == [] <==> q == cur;
    }
  }

  method CollectRemovedSubtree(n: Node, cur: Path, rank: map<Package, nat>, ghost was: seq<Package>)
    returns (found: Found)
    requires WellTagged(n) && Ranks(rank, was) && Covers(was, n.prefixes)
    ensures Lists(found, cur, RemovedSubtree(was), n)
    decreases n
  {
    var best := Winner(n.prefixes, rank, was);
    found := [];
    if best.Some? && best.value in n.terminals { found := [(cur, best.value)]; }
    var below := RemovedBelow(n, cur, rank, was);
    RemovedDescends(n, was);
    CloseNode(found, below, cur, RemovedSubtree(was), n, RemovedSubtree(was));
    found := found + below;
  }

  method RemovedBelow(n: Node, cur: Path, rank: map<Package, nat>, ghost was: seq<Package>)
    returns (found: Found)
    requires WellTagged(n) && Ranks(rank, was) && Covers(was, n.prefixes)
    ensures ListsBelow(found, cur, RemovedSubtree(was), n, n.children.Keys)
    decreases n, 0
  {
    found := [];
    var rest := n.children.Keys;
    ghost var done: set<string> := {};
    while rest != {}
      invariant rest !! done && rest + done == n.children.Keys
      invariant ListsBelow(found, cur, RemovedSubtree(was), n, done)
    {
      var c :| c in rest;
      var more := CollectRemovedSubtree(n.children[c], cur + [c], rank, was);
      AppendChild(found, more, cur, RemovedSubtree(was), n, done, c);
      found := found + more;
      rest := rest - {c};
      done := done + {c};
    }
  }

  method CollectNewWinners(n: Node, cur: Path, rank: map<Package, nat>, ghost now: seq<Package>)
    returns (found: Found)
    requires WellTagged(n) && Ranks(rank, now) && Covers(now, n.prefixes)
    ensures Lists(found, cur, NewWinners(now), n)
    decreases n
  {
    var best := Winner(n.prefixes, rank, now);
    found := [];
    if best.Some? {
      if best.value in n.terminals {
        found := [(cur, best.value)];
        ListsHere(found, cur, NewWinners(now), n);
        return;
      }
      found := WinnersBelow(n, cur, rank, now);
      WinnersDescend(n, now);
      CloseNode([], found, cur, NewWinners(now), n, NewWinners(now));
      assert [] + found == found;
    }
  }

  method WinnersBelow(n: Node, cur: Path, rank: map<Package, nat>, ghost now: seq<Package>)
    returns (found: Found)
    requires WellTagged(n) && Ranks(rank, now) && Covers(now, n.prefixes)
    ensures ListsBelow(found, cur, NewWinners(now), n, n.children.Keys)
    decreases n, 0
  {
    found := [];
    var rest := n.children.Keys;
    ghost var done: set<string> := {};
    while rest != {}
      invariant rest !! done && rest + done == n.children.Keys
      invariant ListsBelow(found, cur, NewWinners(now), n, done)
    {
      var c :| c in rest;
      var more := CollectNewWinners(n.children[c], cur + [c], rank, now);
      AppendChild(found, more, cur, NewWinners(now), n, done, c);
      found := found + more;
      rest := rest - {c};
      done := done + {c};
    }
  }

  /** The four-case walk over both orders at once. */
  method Diff(n: Node, cur: Path, oldRank: map<Package, nat>, newRank: map<Package, nat>,
              ghost was: seq<Package>, ghost now: seq<Package>)
    returns (to: Found, from: Found)
    requires WellTagged(n)
    requires Ranks(oldRank, was) && Covers(was, n.prefixes) && Ranks(newRank, now) && Covers(now, n.prefixes)
    ensures Lists(to, cur, ToClobbers(was, now), n)
    ensures Lists(from, cur, FromClobbers(was, now), n)
    decreases n
  {
    var oldWinner := Winner(n.prefixes, oldRank, was);
    var newWinner := Winner(n.prefixes, newRank, now);
    var oldIsFile := oldWinner.Some? && oldWinner.value in n.terminals;
    var newIsFile := newWinner.Some? && newWinner.value in n.terminals;
    to, from := [], [];
    ghost var v, w := ToClobbers(was, now), FromClobbers(was, now);
    match (oldIsFile, newIsFile) {
      case (true, true) =>
        if oldWinner != newWinner {
          to := [(cur, oldWinner.value)];
          from := [(cur, newWinner.value)];
        }
        ListsHere(to, cur, v, n);
        ListsHere(from, cur, w, n);
      case (false, true) =>
        from := [(cur, newWinner.value)];
        to := CollectRemovedSubtree(n, cur, oldRank, was);
        ListsHere(from, cur, w, n);
      case (true, false) =>
        to := [(cur, oldWinner.value)];
        from := CollectNewWinners(n, cur, newRank, now);
        ListsHere(to, cur, v, n);
      case (false, false) =>
        to, from := DiffBelow(n, cur, oldRank, newRank, was, now);
        CloseDiff(n, cur, was, now, to, from);
    }
  }

  method DiffBelow(n: Node, cur: Path, oldRank: map<Package, nat>, newRank: map<Package, nat>,
                   ghost was: seq<Package>, ghost now: seq<Package>)
    returns (to: Found, from: Found)
    requires WellTagged(n)
    requires Ranks(oldRank, was) && Covers(was, n.prefixes) && Ranks(newRank, now) && Covers(now, n.prefixes)
    ensures ListsBelow(to, cur, ToClobbers(was, now), n, n.children.Keys)
    ensures ListsBelow(from, cur, FromClobbers(was, now), n, n.children.Keys)
    decreases n, 0
  {
    to, from := [], [];
    ghost var v, w := ToClobbers(was, now), FromClobbers(was, now);
    var rest := n.children.Keys;
    ghost var done: set<string> := {};
    while rest != {}
      invariant rest !! done && rest + done == n.children.Keys
      invariant ListsBelow(to, cur, v, n, done)
      invariant ListsBelow(from, cur, w, n, done)
    {
      var c :| c in rest;
      var moreTo, moreFrom := Diff(n.children[c], cur + [c], oldRank, newRank, was, now);
      AppendChild(to, moreTo, cur, v, n, done, c);
      AppendChild(from, moreFrom, cur, w, n, done, c);
      to, from := to + moreTo, from + moreFrom;
      rest := rest - {c};
      done := done + {c};
    }
  }

  lemma CloseDiff(n: Node, cur: Path, was: seq<Package>, now: seq<Package>, to: Found, from: Found)
    requires !IsFile(n, was) && !IsFile(n, now)
    requires ListsBelow(to, cur, ToClobbers(was, now), n, n.children.Keys)
    requires ListsBelow(from, cur, FromClobbers(was, now), n, n.children.Keys)
    ensures Lists(to, cur, ToClobbers(was, now), n) && Lists(from, cur, FromClobbers(was, now), n)
  {
    var v, w := ToClobbers(was, now), FromClobbers(was, now);
    DiffDescends(n, was, now);
    CloseNode([], to, cur, v, n, v);
    CloseNode([], from, cur, w, n, w);
    assert [] + to == to && [] + from == from;
  }

  method FirstOwner(candidates: seq<Package>, terminals: set<Package>) returns (owner: Option<Package>)
    ensures owner == FirstIn(candidates, terminals)
  {
    for i := 0 to |candidates|
      invariant FirstIn(candidates[i..], terminals) == FirstIn(candidates, terminals)
    {
      if candidates[i] in terminals { return Some(candidates[i]); }
    }
    return None;
  }

  method CollectNextCandidates(n: Node, cur: Path, g: Package, candidates: seq<Package>, under: bool)
    returns (found: Found)
    ensures Lists(found, cur, NextCandidates(g, candidates, under), n)
    decreases n
  {
    found := [];
    var removedHere := g in n.terminals;
    if !under && !removedHere && g !in n.prefixes { return; }
    var owner := FirstOwner(candidates, n.terminals);
    if owner.Some? { found := [(cur, owner.value)]; }
    var below := CandidatesBelow(n, cur, g, candidates, under || removedHere);
    CandidatesDescend(n, g, candidates, under);
    CloseNode(found, below, cur, NextCandidates(g, candidates, under), n, NextCandidates(g, candidates, under || removedHere));
    found := found + below;
  }

  method CandidatesBelow(n: Node, cur: Path, g: Package, candidates: seq<Package>, under: bool)
    returns (found: Found)
    ensures ListsBelow(found, cur, NextCandidates(g, candidates, under), n, n.children.Keys)
    decreases n, 0
  {
    found := [];
    var rest := n.children.Keys;
    ghost var done: set<string> := {};
    while rest != {}
      invariant rest !! done && rest + done == n.children.Keys
      invariant ListsBelow(found, cur, NextCandidates(g, candidates, under), n, done)
    {
      var c :| c in rest;
      var more := CollectNextCandidates(n.children[c], cur + [c], g, candidates, under);
      AppendChild(found, more, cur, NextCandidates(g, candidates, under), n, done, c);
      found := found + more;
      rest := rest - {c};
      done := done + {c};
    }
  }

  // ---------------------------------------------------------------- In-place walks

  method PropagatePrefix(n: Node, g: Package) returns (m: Node)
    ensures m == Propagate(n, g)
    decreases n
  {
    var children: map<string, Node> := map[];
    var rest := n.children.Keys;
    while rest != {}
      invariant rest <= n.children.Keys && children.Keys == n.children.Keys - rest
      invariant forall c :: c in children ==> children[c] == Propagate(n.children[c], g)
    {
      var c :| c in rest;
      var child := PropagatePrefix(n.children[c], g);
      children := children[c := child];
      rest := rest - {c};
    }
    m := Node(n.prefixes + {g}, n.terminals, children);
  }

  /** Find the node at a path and propagate from it. */
  method PropagateFrom(n: Node, p: Path, g: Package) returns (m: Node)
    ensures m == PropagateAt(n, p, g)
    decreases |p|
  {
    if p == [] {
      m := PropagatePrefix(n, g);
    } else if p[0] in n.children {
      var child := PropagateFrom(n.children[p[0]], p[1..], g);
      m := n.(children := n.children[p[0] := child]);
    } else {
      m := n;
    }
  }

  method RemovePackage(n: Node, g: Package) returns (m: Node)
    ensures m == Remove(n, g)
    decreases n
  {
    var children: map<string, Node> := map[];
    var rest := n.children.Keys;
    while rest != {}
      invariant rest <= n.children.Keys && children.Keys == n.children.Keys - rest
      invariant forall c :: c in children ==> children[c] == Remove(n.children[c], g)
    {
      var c :| c in rest;
      var child := RemovePackage(n.children[c], g);
      children := children[c := child];
      rest := rest - {c};
    }
    m := Node(n.prefixes - {g}, n.terminals - {g}, children);
  }

  /** Prune the branches below n; say whether n itself is dead afterwards. */
  method PruneBranches(n: Node) returns (m: Node, dead: bool)
    ensures m == Prune(n) && dead == Dead(m)
    decreases n
  {
    var children := n.children;
    var rest := n.children.Keys;
    while rest != {}
      invariant rest <= n.children.Keys && rest <= children.Keys <= n.children.Keys
      invariant forall c :: c in rest ==> children[c] == n.children[c]
      invariant forall c :: c in n.children && c !in rest ==> (c in children <==> !Dead(Prune(n.children[c])))
      invariant forall c :: c in children && c !in rest ==> children[c] == Prune(n.children[c])
    {
      var c :| c in rest;
      var child, childDead := PruneBranches(children[c]);
      children := if childDead then children - {c} else children[c := child];
      rest := rest - {c};
    }
    m := n.(children := children);
    dead := m.prefixes == {} && m.terminals == {} && m.children == map[];
  }
}
