/** What adding and removing a package does to the view, and where the reports of the
    resolver and the view part ways (crates/path_resolver/src/lib.rs). */
module InsertedView {
  import opened Orders
  import opened PathTrie
  import opened ClobberView
  import opened ResolverState

  /** No tag stands at p, and no local file above it. */
  ghost predicate Free(n: Node, packages: seq<Package>, p: Path) {
    Tags(n, p) == {} && forall q, h :: q < p ==> !LocalFile(n, packages, q, h)
  }

  /** A new package comes last: it owns a node only where nothing was tagged. */
  lemma {:induction false} LocalFileAfterInsert(n: Node, packages: seq<Package>, g: Package, paths: seq<Path>, q: Path, h: Package)
    requires Invariant(n, packages) && g !in packages
    ensures LocalFile(Inserted(n, g, paths), packages + [g], q, h) <==>
      if Tags(n, q) != {} then LocalFile(n, packages, q, h) else h == g && q in paths
  {
    var m := Inserted(n, g, paths);
    var before, after := Tags(n, q), Tags(m, q);
    InsertedAt(n, g, paths, q);
    TagsBelow(n, q);
    InsertedTagged(n, g, paths);
    TagsBelow(m, q);
    FirstInConcat(packages, [g], after);
    FirstInWithout(packages, after, g);
    assert after - {g} == before;
  }

  /** Inserting an unregistered package changes nothing for the others, and its own file at p
      becomes visible exactly where p was free and no file of its own hides it. */
  lemma {:induction false} InsertView(n: Node, packages: seq<Package>, g: Package, paths: seq<Path>, p: Path, c: Package)
    requires Invariant(n, packages) && g !in packages
    ensures c != g ==>
      (Visible(Inserted(n, g, paths), packages + [g], p, c) <==> Visible(n, packages, p, c))
    ensures Visible(Inserted(n, g, paths), packages + [g], p, g) <==>
      p in paths && Free(n, packages, p) && forall q :: q < p && q in paths ==> Tags(n, q) != {}
  {
    var m, after := Inserted(n, g, paths), packages + [g];
    InsertKeepsInvariant(n, packages, g, paths);
    VisibleIffTopmost(m, after, p, c);
    VisibleIffTopmost(m, after, p, g);
    VisibleIffTopmost(n, packages, p, c);
    TagsBelow(n, p);
    forall q, h
      ensures LocalFile(m, after, q, h) <==>
        if Tags(n, q) != {} then LocalFile(n, packages, q, h) else h == g && q in paths
    {
      LocalFileAfterInsert(n, packages, g, paths, q, h);
    }
    forall q | q < p && Tags(n, p) != {} ensures Tags(n, q) != {} { TagsShrink(n, q, p); }
    forall q, h | LocalFile(n, packages, q, h) ensures Tags(n, q) != {} {}
    if Tags(n, p) == {} && !LocalAbove(m, after, p) {
      forall q, h | q < p ensures !LocalFile(n, packages, q, h) {
        assert !LocalFile(m, after, q, h);
      }
      forall q | q < p && q in paths ensures Tags(n, q) != {} {
        assert !LocalFile(m, after, q, g);
      }
    }
  }

  /** The view after an insertion, read off the state before it: the other files are shown
      as before, and a file of the new package where p was free and no new file stands at an
      untagged place above. */
  ghost predicate ShowsInserted(n: Node, packages: seq<Package>, g: Package, paths: seq<Path>, m: Node, after: seq<Package>) {
    && (forall p, c :: c != g ==> (Visible(m, after, p, c) <==> Visible(n, packages, p, c)))
    && (forall p :: Visible(m, after, p, g) <==>
         p in paths && Free(n, packages, p) && forall q :: q < p && q in paths ==> Tags(n, q) != {})
  }

  lemma {:induction false} InsertShows(n: Node, packages: seq<Package>, g: Package, paths: seq<Path>)
    requires Invariant(n, packages) && g !in packages
    ensures ShowsInserted(n, packages, g, paths, Inserted(n, g, paths), packages + [g])
  {
    forall p, c { InsertView(n, packages, g, paths, p, c); }
  }

  ghost predicate LocalAbove(n: Node, order: seq<Package>, p: Path) {
    exists q, h :: q < p && LocalFile(n, order, q, h)
  }

  /** A new path that is not reported as a conflict is visible, unless the package has
      another file above it. */
  lemma UnreportedIsVisible(n: Node, packages: seq<Package>, g: Package, paths: seq<Path>, p: Path)
    requires Invariant(n, packages) && g !in packages
    requires p in paths && p != [] && Owners(n, []) == {} && !Clashes(n, p)
    requires forall q :: q < p ==> q !in paths
    ensures Visible(Inserted(n, g, paths), packages + [g], p, g)
  {
    InsertView(n, packages, g, paths, p, g);
    if Tags(n, p) != {} { TaggedClashes(n, packages, p); }
    forall q, h | q < p ensures !LocalFile(n, packages, q, h) {
      if h in Owners(n, q) { assert q != [] && Comparable(q, p); }
    }
  }

  lemma TaggedClashes(n: Node, packages: seq<Package>, p: Path)
    requires Invariant(n, packages) && p != [] && Tags(n, p) != {}
    ensures Clashes(n, p)
  {
    var h :| h in Tags(n, p);
    assert OwnsNear(n, p, h);
  }

  /** w's file x, then h's file foo. */
  function TwoFiles(w: Package, x: Path, h: Package, foo: Path): Node {
    Inserted(Inserted(EMPTY, w, [x]), h, [foo])
  }

  /** The converse fails: a reported path can be visible, because the file it clashes with
      is itself hidden. Package w owns x, package h after it a file foo above x, and the new
      package g brings y, also below foo. */
  lemma {:induction false} ReportedYetVisible(w: Package, h: Package, g: Package, x: Path, foo: Path, y: Path) returns (ops: seq<Operation>)
    requires w != h && g != w && g != h
    requires foo != [] && foo < x && foo < y && !Comparable(x, y)
    ensures Reachable(TwoFiles(w, x, h, foo), [w, h], ops)
    ensures Check(TwoFiles(w, x, h, foo), y) != NoConflict
    ensures Visible(Inserted(TwoFiles(w, x, h, foo), g, [y]), [w, h, g], y, g)
  {
    ops := TwoInserts(w, [x], h, [foo]);
    RunsKeepInvariant(TwoFiles(w, x, h, foo), [w, h], ops);
    TwoFilesReport(TwoFiles(w, x, h, foo), w, x, h, foo, y);
    TwoFilesShow(TwoFiles(w, x, h, foo), w, x, h, foo, g, y);
    assert [w, h] + [g] == [w, h, g];
  }

  lemma {:induction false} TwoFilesReport(n: Node, w: Package, x: Path, h: Package, foo: Path, y: Path)
    requires n == TwoFiles(w, x, h, foo) && Invariant(n, [w, h])
    requires foo != [] && foo < x && foo < y
    ensures Check(n, y) != NoConflict
  {
    TwoFilesAt(w, x, h, foo, foo);
    assert Clashes(n, y) by { assert Comparable(foo, y); }
    CheckIffClashes(n, [w, h], y);
  }

  lemma {:induction false} TwoFilesShow(n: Node, w: Package, x: Path, h: Package, foo: Path, g: Package, y: Path)
    requires n == TwoFiles(w, x, h, foo) && Invariant(n, [w, h])
    requires w != h && g != w && g != h && foo < x && foo < y && !Comparable(x, y)
    ensures Visible(Inserted(n, g, [y]), [w, h] + [g], y, g)
  {
    TwoFilesAt(w, x, h, foo, y);
    forall q, c | q < y ensures !LocalFile(n, [w, h], q, c) {
      TwoFilesAt(w, x, h, foo, q);
      TwoFilesShadow(w, x, h, foo, c);
    }
    InsertView(n, [w, h], g, [y], y, g);
  }

  lemma {:induction false} TwoFilesAt(w: Package, x: Path, h: Package, foo: Path, q: Path)
    requires foo < x
    ensures Owners(TwoFiles(w, x, h, foo), q) == (if q == x then {w} else {}) + if q == foo then {h} else {}
    ensures !(q <= x) ==> Tags(TwoFiles(w, x, h, foo), q) == {}
  {
    InsertedAt(EMPTY, w, [x], q);
    InsertedAt(Inserted(EMPTY, w, [x]), h, [foo], q);
    assert q in [x] <==> q == x;
    assert q in [foo] <==> q == foo;
    assert q == [] ==> q <= x;
  }

  /** foo is hidden: w tags it on the way to x and comes first. */
  lemma {:induction false} TwoFilesShadow(w: Package, x: Path, h: Package, foo: Path, c: Package)
    requires w != h && foo < x
    requires Invariant(TwoFiles(w, x, h, foo), [w, h])
    ensures !LocalFile(TwoFiles(w, x, h, foo), [w, h], foo, c)
  {
    var n := TwoFiles(w, x, h, foo);
    TwoFilesAt(w, x, h, foo, foo);
    TwoFilesAt(w, x, h, foo, x);
    TagsBelow(n, x);
    TagsShrink(n, foo, x);
    assert w in Tags(n, foo);
  }

  lemma {:induction false} TwoInserts(w: Package, xs: seq<Path>, h: Package, ys: seq<Path>) returns (ops: seq<Operation>)
    requires w != h
    ensures Reachable(Inserted(Inserted(EMPTY, w, xs), h, ys), [w, h], ops)
  {
    var first, second := InsertPackage(w, xs), InsertPackage(h, ys);
    assert Reachable(EMPTY, [], []);
    OneMore(EMPTY, [], [], first, Inserted(EMPTY, w, xs), [w]);
    ops := [] + [first];
    OneMore(Inserted(EMPTY, w, xs), [w], ops, second, Inserted(Inserted(EMPTY, w, xs), h, ys), [w, h]);
    ops := ops + [second];
  }

  lemma {:induction false} OneMore(n: Node, packages: seq<Package>, ops: seq<Operation>, op: Operation, m: Node, after: seq<Package>)
    requires Reachable(n, packages, ops) && Step(n, packages, op, m, after)
    ensures Reachable(m, after, ops + [op])
  {
    assert (ops + [op])[..|ops|] == ops;
  }

  // ---------------------------------------------------------------- Unregistering

  /** Read off the trie before the removal of g: among the other packages c is the best tag
      at p, and at no place above does the best one own a file. */
  ghost predicate Surfaces(n: Node, packages: seq<Package>, g: Package, p: Path, c: Package) {
    && FirstIn(Without(packages, g), Tags(n, p)) == Some(c)
    && forall q, h :: q < p ==> !LocalFile(n, Without(packages, g), q, h)
  }

  /** Removing g leaves the others' tags and files alone. */
  lemma LocalFileAfterRemoval(n: Node, packages: seq<Package>, g: Package, q: Path, h: Package)
    requires Invariant(n, packages) && g in packages
    ensures LocalFile(Removed(n, g), Without(packages, g), q, h) <==> LocalFile(n, Without(packages, g), q, h)
  {
    RemovedAt(n, g, q);
    var before := WithoutSplits(packages, g);
    FirstInWithout(Without(packages, g), Tags(n, q), g);
  }

  /** A pair restored by an unregistration may stay hidden. It is visible afterwards exactly
      when it surfaces. */
  lemma {:induction false} RestoredVisibleIff(n: Node, packages: seq<Package>, g: Package, p: Path, c: Package)
    requires Invariant(n, packages) && g in packages && Restores(n, g, After(packages, g), false, p, c)
    ensures Visible(Removed(n, g), Without(packages, g), p, c) <==> Surfaces(n, packages, g, p, c)
  {
    var m, rest := Removed(n, g), Without(packages, g);
    RemoveKeepsInvariant(n, packages, g);
    VisibleIffTopmost(m, rest, p, c);
    RestoresFlat(n, g, After(packages, g), false, p, c);
    forall q, h ensures LocalFile(m, rest, q, h) <==> LocalFile(n, rest, q, h) {
      LocalFileAfterRemoval(n, packages, g, q, h);
    }
  }

  /** Three packages: w owns a file foo, g and after it c own the file x below foo. */
  function ThreeFiles(w: Package, foo: Path, g: Package, c: Package, x: Path): Node {
    Inserted(Inserted(Inserted(EMPTY, w, [foo]), g, [x]), c, [x])
  }

  lemma {:induction false} ThreeFilesReachable(w: Package, foo: Path, g: Package, c: Package, x: Path) returns (ops: seq<Operation>)
    requires w != g && g != c && w != c
    ensures Reachable(ThreeFiles(w, foo, g, c, x), [w, g, c], ops)
    ensures Invariant(ThreeFiles(w, foo, g, c, x), [w, g, c])
  {
    ops := TwoInserts(w, [foo], g, [x]);
    var n := Inserted(Inserted(EMPTY, w, [foo]), g, [x]);
    OneMore(n, [w, g], ops, InsertPackage(c, [x]), Inserted(n, c, [x]), [w, g, c]);
    ops := ops + [InsertPackage(c, [x])];
    RunsKeepInvariant(ThreeFiles(w, foo, g, c, x), [w, g, c], ops);
  }

  lemma {:induction false} ThreeFilesAt(w: Package, foo: Path, g: Package, c: Package, x: Path, q: Path)
    requires foo < x
    ensures Owners(ThreeFiles(w, foo, g, c, x), q) == (if q == foo then {w} else {}) + if q == x then {g, c} else {}
  {
    InsertedAt(EMPTY, w, [foo], q);
    InsertedAt(Inserted(EMPTY, w, [foo]), g, [x], q);
    InsertedAt(Inserted(Inserted(EMPTY, w, [foo]), g, [x]), c, [x], q);
    assert q in [foo] <==> q == foo;
    assert q in [x] <==> q == x;
  }

  /** Unregistering g restores c's file x, and nothing else; but it stays hidden below foo. */
  lemma {:induction false} RestoredYetHidden(w: Package, foo: Path, g: Package, c: Package, x: Path) returns (ops: seq<Operation>)
    requires w != g && g != c && w != c && foo < x
    ensures Reachable(ThreeFiles(w, foo, g, c, x), [w, g, c], ops)
    ensures forall p, h ::
      Restores(ThreeFiles(w, foo, g, c, x), g, After([w, g, c], g), false, p, h) <==> p == x && h == c
    ensures !Visible(Removed(ThreeFiles(w, foo, g, c, x), g), Without([w, g, c], g), x, c)
  {
    ops := ThreeFilesReachable(w, foo, g, c, x);
    ThreeFilesRestore(ThreeFiles(w, foo, g, c, x), w, foo, g, c, x);
    ThreeFilesHide(ThreeFiles(w, foo, g, c, x), w, foo, g, c, x);
  }

  lemma {:induction false} ThreeOrders(w: Package, g: Package, c: Package)
    requires w != g && g != c && w != c
    ensures After([w, g, c], g) == [c] && Without([w, g, c], g) == [w, c]
  {
    var before := WithoutSplits([w, g, c], g);
    assert [w, g, c][1..] == [g, c] && [g, c][1..] == [c];
    assert After([w, g, c], g) == After([g, c], g) == [c];
    assert Without([g, c], g) == [c];
  }

  lemma {:induction false} ThreeFilesRestore(n: Node, w: Package, foo: Path, g: Package, c: Package, x: Path)
    requires n == ThreeFiles(w, foo, g, c, x) && Invariant(n, [w, g, c])
    requires w != g && g != c && w != c && foo < x
    ensures forall p, h :: Restores(n, g, After([w, g, c], g), false, p, h) <==> p == x && h == c
  {
    ThreeOrders(w, g, c);
    forall p, h ensures Restores(n, g, After([w, g, c], g), false, p, h) <==> p == x && h == c {
      RestoresExactly(n, [w, g, c], g, p, h);
      ThreeFilesAt(w, foo, g, c, x, p);
      ThreeFilesAt(w, foo, g, c, x, x);
      assert FirstIn([c], Owners(n, p)) == if c in Owners(n, p) then Some(c) else None;
      assert Comparable(x, x);
    }
  }

  lemma {:induction false} ThreeFilesHide(n: Node, w: Package, foo: Path, g: Package, c: Package, x: Path)
    requires n == ThreeFiles(w, foo, g, c, x) && Invariant(n, [w, g, c])
    requires w != g && g != c && w != c && foo < x
    requires forall p, h :: Restores(n, g, After([w, g, c], g), false, p, h) <==> p == x && h == c
    ensures !Visible(Removed(n, g), Without([w, g, c], g), x, c)
  {
    ThreeOrders(w, g, c);
    ThreeFilesAt(w, foo, g, c, x, foo);
    TagsBelow(n, foo);
    assert w in Tags(n, foo);
    assert LocalFile(n, Without([w, g, c], g), foo, w);
    RestoredVisibleIff(n, [w, g, c], g, x, c);
  }
}
