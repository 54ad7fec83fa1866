/** Which file a package order makes visible at each path, and what a change of the
    order or of the packages does to that view (crates/path_resolver/src/lib.rs). */
module ClobberView {
  import opened Orders
  import opened PathTrie

  // ---------------------------------------------------------------- Priorities

  /** The first package of the order, given in decreasing priority, that is in s. */
  function FirstIn(order: seq<Package>, s: set<Package>): (r: Option<Package>)
    ensures r.Some? ==> r.value in s && r.value in order
    ensures r.None? ==> forall g :: g in order ==> g !in s
  {
    if order == [] then None else if order[0] in s then Some(order[0]) else FirstIn(order[1..], s)
  }

  ghost predicate Distinct(order: seq<Package>) {
    forall i, j :: 0 <= i < j < |order| ==> order[i] != order[j]
  }

  ghost predicate Covers(order: seq<Package>, s: set<Package>) {
    forall g :: g in s ==> g in order
  }

  lemma {:induction false} FirstInConcat(a: seq<Package>, b: seq<Package>, s: set<Package>)
    ensures FirstIn(a + b, s) == if FirstIn(a, s).Some? then FirstIn(a, s) else FirstIn(b, s)
  {
    if a == [] {
      assert a + b == b;
    } else {
      assert (a + b)[1..] == a[1..] + b;
      FirstInConcat(a[1..], b, s);
    }
  }

  /** The first of a set is the first of any smaller set it belongs to. */
  lemma {:induction false} FirstInSubset(order: seq<Package>, s: set<Package>, t: set<Package>)
    requires t <= s && FirstIn(order, s).Some? && FirstIn(order, s).value in t
    ensures FirstIn(order, t) == FirstIn(order, s)
  {
    if order[0] !in s { FirstInSubset(order[1..], s, t); }
  }

  lemma {:induction false} FirstInWithout(order: seq<Package>, s: set<Package>, g: Package)
    requires g !in order
    ensures FirstIn(order, s - {g}) == FirstIn(order, s)
  {
    if order != [] { FirstInWithout(order[1..], s, g); }
  }

  // ---------------------------------------------------------------- The view

  /** The tag of highest priority at n owns a file exactly there. */
  predicate IsFile(n: Node, order: seq<Package>) {
    var w := FirstIn(order, n.prefixes);
    w.Some? && w.value in n.terminals
  }

  /** The walk of collect_new_winners: emit at the first node whose best tag owns it. */
  predicate Visible(n: Node, order: seq<Package>, p: Path, g: Package)
    decreases |p|
  {
    var w := FirstIn(order, n.prefixes);
    w.Some? &&
    if w.value in n.terminals then p == [] && g == w.value
    else p != [] && p[0] in n.children && Visible(n.children[p[0]], order, p[1..], g)
  }

  /** g owns a file at p and is the best tag there. */
  predicate LocalFile(n: Node, order: seq<Package>, p: Path, g: Package) {
    g in Owners(n, p) && FirstIn(order, Tags(n, p)) == Some(g)
  }

  /** The view without a walk: the local files with no local file above them. */
  lemma {:induction false} VisibleIffTopmost(n: Node, order: seq<Package>, p: Path, g: Package)
    requires WellTagged(n) && Covers(order, n.prefixes)
    ensures Visible(n, order, p, g) <==>
      LocalFile(n, order, p, g) && forall q, h :: q < p ==> !LocalFile(n, order, q, h)
    decreases |p|
  {
    var w := FirstIn(order, n.prefixes);
    if p == [] {
      TagsBelow(n, []);
    } else if p[0] in n.children {
      var m, r := n.children[p[0]], p[1..];
      VisibleIffTopmost(m, order, r, g);
      assert w.Some?;
      if IsFile(n, order) {
        assert [] < p && LocalFile(n, order, [], w.value);
      } else {
        forall q, h | q < p ensures LocalFile(n, order, q, h) <==> q != [] && LocalFile(m, order, q[1..], h) {
          if q != [] { assert q[0] == p[0]; }
        }
        forall q, h | q < r ensures LocalFile(m, order, q, h) <==> LocalFile(n, order, [p[0]] + q, h) {
          assert ([p[0]] + q)[1..] == q;
        }
        if forall q, h :: q < p ==> !LocalFile(n, order, q, h) {
          forall q, h | q < r ensures !LocalFile(m, order, q, h) {
            assert [p[0]] + q < p by { assert p == [p[0]] + r; }
          }
        }
        if forall q, h :: q < r ==> !LocalFile(m, order, q, h) {
          forall q, h | q < p ensures !LocalFile(n, order, q, h) {
            if q != [] { assert q[1..] < r; }
          }
        }
      }
    }
  }

  /** Visible files are an antichain of paths, with one owner each. */
  lemma VisibleAntichain(n: Node, order: seq<Package>, p: Path, g: Package, q: Path, h: Package)
    requires WellTagged(n) && Covers(order, n.prefixes)
    requires Visible(n, order, p, g) && Visible(n, order, q, h) && Comparable(p, q)
    ensures p == q && g == h
  {
    VisibleIffTopmost(n, order, p, g);
    VisibleIffTopmost(n, order, q, h);
  }

  /** A local file is visible, or a visible file stands above it. */
  lemma {:induction false} LocalFileShadow(n: Node, order: seq<Package>, p: Path, g: Package)
    returns (q: Path, h: Package)
    requires WellTagged(n) && Covers(order, n.prefixes) && LocalFile(n, order, p, g)
    ensures q <= p && Visible(n, order, q, h)
    decreases |p|
  {
    TagsBelow(n, p);
    if IsFile(n, order) {
      q, h := [], FirstIn(order, n.prefixes).value;
    } else {
      var r;
      r, h := LocalFileShadow(n.children[p[0]], order, p[1..], g);
      q := [p[0]] + r;
      assert q[1..] == r;
      PrefixStep(q, p);
    }
  }

  // ---------------------------------------------------------------- Reprioritising

  /** The four-case walk: what it pushes to the list of files to hide. */
  predicate DiffTo(n: Node, was: seq<Package>, now: seq<Package>, p: Path, g: Package)
    decreases |p|
  {
    match (IsFile(n, was), IsFile(n, now))
    case (true, true) => p == [] && FirstIn(was, n.prefixes) == Some(g) && FirstIn(now, n.prefixes) != Some(g)
    case (false, true) => LocalFile(n, was, p, g)
    case (true, false) => p == [] && FirstIn(was, n.prefixes) == Some(g)
    case (false, false) => p != [] && p[0] in n.children && DiffTo(n.children[p[0]], was, now, p[1..], g)
  }

  /** And what it pushes to the list of files to restore. */
  predicate DiffFrom(n: Node, was: seq<Package>, now: seq<Package>, p: Path, g: Package)
    decreases |p|
  {
    match (IsFile(n, was), IsFile(n, now))
    case (true, true) => p == [] && FirstIn(now, n.prefixes) == Some(g) && FirstIn(was, n.prefixes) != Some(g)
    case (false, true) => p == [] && FirstIn(now, n.prefixes) == Some(g)
    case (true, false) => Visible(n, now, p, g)
    case (false, false) => p != [] && p[0] in n.children && DiffFrom(n.children[p[0]], was, now, p[1..], g)
  }

  /** The change sets turn the old view into the new one. The restored files are exactly
      the newly visible ones; every hidden file is a local file of the was order, none is
      visible afterwards, and one that was not visible before lay below one that was. */
  lemma {:induction false} DiffTurnsOldIntoNew(n: Node, was: seq<Package>, now: seq<Package>, p: Path, g: Package)
    requires WellTagged(n) && Covers(was, n.prefixes) && Covers(now, n.prefixes)
    ensures DiffFrom(n, was, now, p, g) <==> Visible(n, now, p, g) && !Visible(n, was, p, g)
    ensures Visible(n, now, p, g) <==>
      (Visible(n, was, p, g) && !DiffTo(n, was, now, p, g)) || DiffFrom(n, was, now, p, g)
    ensures DiffTo(n, was, now, p, g) ==> LocalFile(n, was, p, g) && !Visible(n, now, p, g)
    ensures DiffTo(n, was, now, p, g) && !Visible(n, was, p, g) ==>
      exists q, h :: q < p && Visible(n, was, q, h)
    decreases |p|
  {
    if IsFile(n, was) || IsFile(n, now) {
      if Visible(n, was, p, g) { VisibleIffTopmost(n, was, p, g); }
      if LocalFile(n, was, p, g) && !Visible(n, was, p, g) {
        var q, h := LocalFileShadow(n, was, p, g);
        VisibleIffTopmost(n, was, q, h);
        assert q != p;
      }
    } else if p != [] && p[0] in n.children {
      var m, r := n.children[p[0]], p[1..];
      DiffTurnsOldIntoNew(m, was, now, r, g);
      assert n.prefixes != {};
      if DiffTo(m, was, now, r, g) && !Visible(m, was, r, g) {
        var q, h :| q < r && Visible(m, was, q, h);
        assert ([p[0]] + q)[1..] == q;
        assert [p[0]] + q < p && Visible(n, was, [p[0]] + q, h);
      }
    }
  }

  /** Keeping the order changes nothing. */
  lemma {:induction false} SameOrderNoChanges(n: Node, order: seq<Package>, p: Path, g: Package)
    ensures !DiffTo(n, order, order, p, g) && !DiffFrom(n, order, order, p, g)
    decreases |p|
  {
    if p != [] && p[0] in n.children { SameOrderNoChanges(n.children[p[0]], order, p[1..], g); }
  }
}
