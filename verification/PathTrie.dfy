/** The path-component trie of crates/path_resolver/src/lib.rs: nodes, the recursive
    changes made to them, and what each change does at every path. */
module PathTrie {
  type Package = string
  type Path = seq<string>

  /** Children are owned by their parent, as in the source: a node is a tree value. */
  datatype Node = Node(
    prefixes: set<Package>,
    terminals: set<Package>,
    children: map<string, Node>)

  const EMPTY := Node({}, {}, map[])

  function Child(n: Node, c: string): Node {
    if c in n.children then n.children[c] else EMPTY
  }

  // ---------------------------------------------------------------- What is at a path

  predicate Has(n: Node, p: Path) {
    p == [] || (p[0] in n.children && Has(n.children[p[0]], p[1..]))
  }

  function NodeAt(n: Node, p: Path): Node
    requires Has(n, p)
  {
    if p == [] then n else NodeAt(n.children[p[0]], p[1..])
  }

  /** The packages tagging the node at p. */
  function Tags(n: Node, p: Path): set<Package> {
    if Has(n, p) then NodeAt(n, p).prefixes else {}
  }

  /** The packages owning a file exactly at p. */
  function Owners(n: Node, p: Path): set<Package> {
    if Has(n, p) then NodeAt(n, p).terminals else {}
  }

  predicate Comparable(p: Path, q: Path) { p <= q || q <= p }

  /** Prefixes, one component at a time. */
  lemma PrefixStep(p: Path, q: Path)
    requires p != []
    ensures p <= q <==> q != [] && p[0] == q[0] && p[1..] <= q[1..]
  {
    if q != [] && p[0] == q[0] && p[1..] <= q[1..] {
      assert p == [p[0]] + p[1..] && q == [q[0]] + q[1..];
    }
  }

  lemma BelowChild(n: Node, c: string, p: Path)
    requires c in n.children
    ensures Has(n, [c] + p) == Has(n.children[c], p)
    ensures Tags(n, [c] + p) == Tags(n.children[c], p)
    ensures Owners(n, [c] + p) == Owners(n.children[c], p)
  {
    assert ([c] + p)[1..] == p;
  }

  // ---------------------------------------------------------------- Changes

  function Insert(n: Node, p: Path, g: Package): Node
    decreases |p|
  {
    if p == [] then
      n.(prefixes := n.prefixes + {g}, terminals := n.terminals + {g})
    else
      n.(prefixes := n.prefixes + {g}, children := n.children[p[0] := Insert(Child(n, p[0]), p[1..], g)])
  }

  function Propagate(n: Node, g: Package): Node {
    Node(n.prefixes + {g}, n.terminals, map c | c in n.children :: Propagate(n.children[c], g))
  }

  /** Propagate from the node at p, when there is one. */
  function PropagateAt(n: Node, p: Path, g: Package): Node
    decreases |p|
  {
    if p == [] then Propagate(n, g)
    else if p[0] in n.children then n.(children := n.children[p[0] := PropagateAt(n.children[p[0]], p[1..], g)])
    else n
  }

  function Remove(n: Node, g: Package): Node {
    Node(n.prefixes - {g}, n.terminals - {g}, map c | c in n.children :: Remove(n.children[c], g))
  }

  predicate Dead(n: Node) {
    n.prefixes == {} && n.terminals == {} && n.children == map[]
  }

  /** Drop, bottom up, every node below n with no tag, no file and no child left. */
  function Prune(n: Node): Node {
    n.(children := map c | c in n.children && !Dead(Prune(n.children[c])) :: Prune(n.children[c]))
  }

  lemma {:induction false} InsertAt(n: Node, p: Path, g: Package, q: Path)
    ensures Has(Insert(n, p, g), q) <==> Has(n, q) || q <= p
    ensures Tags(Insert(n, p, g), q) == Tags(n, q) + if q <= p then {g} else {}
    ensures Owners(Insert(n, p, g), q) == Owners(n, q) + if q == p then {g} else {}
    decreases |p|
  {
    if q != [] && p != [] {
      PrefixStep(q, p);
      if q[0] == p[0] {
        InsertAt(Child(n, p[0]), p[1..], g, q[1..]);
        assert q == [q[0]] + q[1..] && p == [p[0]] + p[1..];
        assert p[0] !in n.children ==> (Has(EMPTY, q[1..]) <==> q[1..] == []);
      }
    }
  }

  lemma {:induction false} PropagateEffect(n: Node, g: Package, q: Path)
    ensures Has(Propagate(n, g), q) == Has(n, q)
    ensures Tags(Propagate(n, g), q) == Tags(n, q) + if Has(n, q) then {g} else {}
    ensures Owners(Propagate(n, g), q) == Owners(n, q)
    decreases |q|
  {
    if q != [] && q[0] in n.children { PropagateEffect(n.children[q[0]], g, q[1..]); }
  }

  lemma {:induction false} PropagateAtEffect(n: Node, p: Path, g: Package, q: Path)
    ensures Has(PropagateAt(n, p, g), q) == Has(n, q)
    ensures Tags(PropagateAt(n, p, g), q) == Tags(n, q) + if p <= q && Has(n, q) then {g} else {}
    ensures Owners(PropagateAt(n, p, g), q) == Owners(n, q)
    decreases |p|
  {
    if p == [] {
      PropagateEffect(n, g, q);
    } else if q != [] && p[0] == q[0] && p[0] in n.children {
      PropagateAtEffect(n.children[p[0]], p[1..], g, q[1..]);
      PrefixStep(p, q);
    }
  }

  lemma {:induction false} RemoveEffect(n: Node, g: Package, q: Path)
    ensures Has(Remove(n, g), q) == Has(n, q)
    ensures Tags(Remove(n, g), q) == Tags(n, q) - {g}
    ensures Owners(Remove(n, g), q) == Owners(n, q) - {g}
    decreases |q|
  {
    if q != [] && q[0] in n.children { RemoveEffect(n.children[q[0]], g, q[1..]); }
  }

  /** Pruning never takes a tag or a file away. */
  lemma {:induction false} PruneEffect(n: Node, q: Path)
    ensures Tags(Prune(n), q) == Tags(n, q)
    ensures Owners(Prune(n), q) == Owners(n, q)
    ensures Has(Prune(n), q) ==> Has(n, q)
    decreases |q|
  {
    if q != [] && q[0] in n.children {
      var m := n.children[q[0]];
      PruneEffect(m, q[1..]);
      if Dead(Prune(m)) {
        assert Prune(m) == EMPTY;
        assert !Has(Prune(n), q);
      }
    }
  }

  // ---------------------------------------------------------------- Local invariant

  /** Files are tagged, tags shrink downwards, and every node below is tagged. */
  ghost predicate WellTagged(n: Node) {
    && n.terminals <= n.prefixes
    && forall c :: c in n.children ==>
         && n.children[c].prefixes != {}
         && n.children[c].prefixes <= n.prefixes
         && WellTagged(n.children[c])
  }

  lemma {:induction false} TagsBelow(n: Node, p: Path)
    requires WellTagged(n)
    ensures Owners(n, p) <= Tags(n, p) <= n.prefixes
    ensures Has(n, p) && p != [] ==> Tags(n, p) != {}
    decreases |p|
  {
    if p != [] && p[0] in n.children { TagsBelow(n.children[p[0]], p[1..]); }
  }

  /** A tag at r also stands at every prefix of r. */
  lemma {:induction false} TagsShrink(n: Node, q: Path, r: Path)
    requires WellTagged(n) && q <= r
    ensures Tags(n, r) <= Tags(n, q)
    ensures Has(n, r) ==> Has(n, q)
    decreases |q|
  {
    if q == [] {
      TagsBelow(n, r);
    } else {
      PrefixStep(q, r);
      if r[0] in n.children { TagsShrink(n.children[r[0]], q[1..], r[1..]); }
    }
  }

  lemma {:induction false} InsertTagged(n: Node, p: Path, g: Package)
    requires WellTagged(n)
    ensures WellTagged(Insert(n, p, g))
    ensures g in Insert(n, p, g).prefixes
    decreases |p|
  {
    if p != [] { InsertTagged(Child(n, p[0]), p[1..], g); }
  }

  lemma {:induction false} PropagateTagged(n: Node, g: Package)
    requires WellTagged(n)
    ensures WellTagged(Propagate(n, g))
  {
    forall c | c in n.children { PropagateTagged(n.children[c], g); }
  }

  lemma {:induction false} PropagateAtTagged(n: Node, p: Path, g: Package)
    requires WellTagged(n) && g in Tags(n, p)
    ensures WellTagged(PropagateAt(n, p, g))
    ensures PropagateAt(n, p, g).prefixes == n.prefixes
    decreases |p|
  {
    if p == [] {
      PropagateTagged(n, g);
      assert n.prefixes + {g} == n.prefixes;
    } else {
      PropagateAtTagged(n.children[p[0]], p[1..], g);
    }
  }

  lemma UntaggedIsDead(n: Node)
    requires WellTagged(n)
    ensures n.prefixes == {} <==> Dead(n)
  {
    if n.prefixes == {} { assert n.children == map[]; }
  }

  /** Removing a package may leave untagged nodes, and pruning drops exactly those. */
  lemma {:induction false} RemovePruneTagged(n: Node, g: Package)
    requires WellTagged(n)
    ensures WellTagged(Prune(Remove(n, g)))
    ensures Prune(Remove(n, g)).prefixes == n.prefixes - {g}
  {
    var r := Remove(n, g);
    forall c | c in n.children { RemovePruneTagged(n.children[c], g); }
    forall c | c in Prune(r).children ensures Prune(r).children[c].prefixes != {} {
      UntaggedIsDead(Prune(r.children[c]));
    }
  }

  /** Pruning m down to n: whatever m holds beyond n is untagged. */
  lemma {:induction false} PruneToBase(m: Node, n: Node)
    requires WellTagged(n)
    requires forall q :: Tags(m, q) == Tags(n, q) && Owners(m, q) == Owners(n, q) && (Has(n, q) ==> Has(m, q))
    ensures Prune(m) == n
  {
    assert Tags(m, []) == Tags(n, []) && Owners(m, []) == Owners(n, []);
    forall c | c in m.children
      ensures Prune(m.children[c]) == Child(n, c)
    {
      forall q
        ensures Tags(m.children[c], q) == Tags(Child(n, c), q)
             && Owners(m.children[c], q) == Owners(Child(n, c), q)
             && (Has(Child(n, c), q) ==> Has(m.children[c], q))
      {
        BelowChild(m, c, q);
        if c in n.children { BelowChild(n, c, q); } else { assert !Has(n, [c] + q); }
      }
      PruneToBase(m.children[c], Child(n, c));
    }
    forall c | c in n.children ensures c in m.children && !Dead(n.children[c]) {
      assert Has(n, [c]) by { assert [c][1..] == []; }
      assert Has(m, [c]);
    }
    assert Prune(m).children == n.children;
  }
}
