/** Sets of versions as sorted lists of intervals (crates/rattler/src/range.rs).
    Every proof goes through cuts: positions of the order just before or just
    after a version, or at one of its two ends. An interval is a pair of cuts, and a
    list in normal form is a strictly increasing list of cuts. */
module VersionRange {
  import opened Orders

  datatype Bound<V> = Included(v: V) | Excluded(v: V) | Unbounded

  datatype Interval<V> = Interval(lower: Bound<V>, upper: Bound<V>)

  datatype Range<V> = Range(segments: seq<Interval<V>>)

  datatype Ordering = Less | Equal | Greater

  function Cmp<V(==)>(lt: (V, V) -> bool, a: V, b: V): Ordering {
    if lt(a, b) then Less else if a == b then Equal else Greater
  }

  // ---------------------------------------------------------------- Cuts

  datatype Cut<V> = Start | Before(v: V) | After(v: V) | End

  function LowerCut<V>(b: Bound<V>): Cut<V> {
    match b
    case Included(v) => Before(v)
    case Excluded(v) => After(v)
    case Unbounded => Start
  }

  function UpperCut<V>(b: Bound<V>): Cut<V> {
    match b
    case Included(v) => After(v)
    case Excluded(v) => Before(v)
    case Unbounded => End
  }

  ghost predicate CutLess<V>(lt: (V, V) -> bool, a: Cut<V>, b: Cut<V>) {
    match (a, b)
    case (_, Start) => false
    case (End, _) => false
    case (Start, _) => true
    case (_, End) => true
    case (Before(x), Before(y)) => lt(x, y)
    case (After(x), After(y)) => lt(x, y)
    case (Before(x), After(y)) => x == y || lt(x, y)
    case (After(x), Before(y)) => lt(x, y)
  }

  /** Cuts are totally ordered. */
  lemma CutOrder<V(!new)>(lt: (V, V) -> bool, a: Cut<V>, b: Cut<V>, c: Cut<V>)
    requires TotalOrder(lt)
    ensures !CutLess(lt, a, a)
    ensures CutLess(lt, a, b) || a == b || CutLess(lt, b, a)
    ensures CutLess(lt, a, b) ==> !CutLess(lt, b, a)
    ensures CutLess(lt, a, b) && CutLess(lt, b, c) ==> CutLess(lt, a, c)
  {
  }

  // ---------------------------------------------------------------- Members

  function SegmentContains<V(==)>(lt: (V, V) -> bool, s: Interval<V>, v: V): bool {
    match (s.lower, s.upper)
    case (Unbounded, Unbounded) => true
    case (Unbounded, Included(end)) => !lt(end, v)
    case (Unbounded, Excluded(end)) => lt(v, end)
    case (Included(start), Unbounded) => !lt(v, start)
    case (Included(start), Included(end)) => !lt(v, start) && !lt(end, v)
    case (Included(start), Excluded(end)) => !lt(v, start) && lt(v, end)
    case (Excluded(start), Unbounded) => lt(start, v)
    case (Excluded(start), Included(end)) => lt(start, v) && !lt(end, v)
    case (Excluded(start), Excluded(end)) => lt(start, v) && lt(v, end)
  }

  /** The version v is a member of some segment. */
  ghost predicate Member<V>(lt: (V, V) -> bool, r: Range<V>, v: V) {
    exists i :: 0 <= i < |r.segments| && SegmentContains(lt, r.segments[i], v)
  }

  method Contains<V(==)>(lt: (V, V) -> bool, r: Range<V>, v: V) returns (found: bool)
    ensures found <==> Member(lt, r, v)
  {
    var i := 0;
    while i < |r.segments|
      invariant 0 <= i <= |r.segments|
      invariant forall j :: 0 <= j < i ==> !SegmentContains(lt, r.segments[j], v)
    {
      if SegmentContains(lt, r.segments[i], v) { return true; }
      i := i + 1;
    }
    return false;
  }

  /** The germ just after cut c lies in a segment of s. */
  ghost predicate In<V>(lt: (V, V) -> bool, s: seq<Interval<V>>, c: Cut<V>) {
    s != [] &&
    ((!CutLess(lt, c, LowerCut(s[0].lower)) && CutLess(lt, c, UpperCut(s[0].upper))) || In(lt, s[1..], c))
  }

  /** A version is a member exactly when the germ just before it is inside. */
  lemma {:induction false} MemberIsCut<V(!new)>(lt: (V, V) -> bool, s: seq<Interval<V>>, v: V)
    requires TotalOrder(lt)
    ensures Member(lt, Range(s), v) <==> In(lt, s, Before(v))
  {
    if s != [] {
      MemberIsCut(lt, s[1..], v);
      assert SegmentContains(lt, s[0], v) <==>
        !CutLess(lt, Before(v), LowerCut(s[0].lower)) && CutLess(lt, Before(v), UpperCut(s[0].upper));
      if Member(lt, Range(s), v) {
        var i :| 0 <= i < |s| && SegmentContains(lt, s[i], v);
        if i > 0 { assert SegmentContains(lt, s[1..][i - 1], v); }
      }
      if Member(lt, Range(s[1..]), v) {
        var i :| 0 <= i < |s[1..]| && SegmentContains(lt, s[1..][i], v);
        assert SegmentContains(lt, s[i + 1], v);
      }
    }
  }

  // ---------------------------------------------------------------- Normal form

  /** Every segment is structurally non-empty, and a gap separates it from the next. */
  ghost predicate Normal<V>(lt: (V, V) -> bool, s: seq<Interval<V>>) {
    s != [] ==>
      && CutLess(lt, LowerCut(s[0].lower), UpperCut(s[0].upper))
      && (|s| > 1 ==> CutLess(lt, UpperCut(s[0].upper), LowerCut(s[1].lower)))
      && Normal(lt, s[1..])
  }

  /** Nothing of s lies before the cut of its first lower bound. */
  lemma {:induction false} NormalStart<V(!new)>(lt: (V, V) -> bool, s: seq<Interval<V>>, c: Cut<V>)
    requires TotalOrder(lt) && Normal(lt, s)
    requires s != [] && CutLess(lt, c, LowerCut(s[0].lower))
    ensures !In(lt, s, c)
  {
    if |s| > 1 {
      CutOrder(lt, c, LowerCut(s[0].lower), UpperCut(s[0].upper));
      CutOrder(lt, c, UpperCut(s[0].upper), LowerCut(s[1].lower));
      NormalStart(lt, s[1..], c);
    }
  }

  /** Past the first upper bound, the first segment no longer counts; up to the next
      lower bound, nothing does. */
  lemma NormalTail<V(!new)>(lt: (V, V) -> bool, s: seq<Interval<V>>, c: Cut<V>)
    requires TotalOrder(lt) && Normal(lt, s) && s != []
    ensures CutLess(lt, c, UpperCut(s[0].upper)) ==> !In(lt, s[1..], c)
    ensures !CutLess(lt, c, UpperCut(s[0].upper)) ==> In(lt, s, c) == In(lt, s[1..], c)
    ensures !In(lt, s, UpperCut(s[0].upper))
  {
    var hi := UpperCut(s[0].upper);
    CutOrder(lt, hi, hi, hi);
    if |s| == 1 {
      assert s[1..] == [];
    } else {
      CutOrder(lt, c, hi, LowerCut(s[1].lower));
      if CutLess(lt, c, hi) { NormalStart(lt, s[1..], c); }
      NormalStart(lt, s[1..], hi);
    }
  }

  /** Two lists in normal form with the same cuts inside are the same list: over any
      total order, with no density assumption. */
  lemma {:induction false} SameCutsSameSegments<V(!new)>(lt: (V, V) -> bool, s: seq<Interval<V>>, t: seq<Interval<V>>)
    requires TotalOrder(lt) && Normal(lt, s) && Normal(lt, t)
    requires forall c :: In(lt, s, c) <==> In(lt, t, c)
    ensures s == t
  {
    if s == [] && t == [] {
    } else if s == [] || t == [] {
      var u := if s == [] then t else s;
      CutOrder(lt, LowerCut(u[0].lower), LowerCut(u[0].lower), LowerCut(u[0].lower));
      assert In(lt, u, LowerCut(u[0].lower));
    } else {
      SameFirst(lt, s, t);
      SameFirst(lt, t, s);
      CutOrder(lt, LowerCut(s[0].lower), LowerCut(t[0].lower), Start);
      CutOrder(lt, UpperCut(s[0].upper), UpperCut(t[0].upper), Start);
      assert s[0] == t[0];
      forall c ensures In(lt, s[1..], c) <==> In(lt, t[1..], c) {
        NormalTail(lt, s, c);
        NormalTail(lt, t, c);
      }
      SameCutsSameSegments(lt, s[1..], t[1..]);
    }
  }

  lemma SameFirst<V(!new)>(lt: (V, V) -> bool, s: seq<Interval<V>>, t: seq<Interval<V>>)
    requires TotalOrder(lt) && Normal(lt, s) && Normal(lt, t) && s != [] && t != []
    requires forall c :: In(lt, s, c) <==> In(lt, t, c)
    ensures !CutLess(lt, LowerCut(s[0].lower), LowerCut(t[0].lower))
    ensures LowerCut(s[0].lower) == LowerCut(t[0].lower) ==>
      !CutLess(lt, UpperCut(s[0].upper), UpperCut(t[0].upper))
  {
    var lo, hi := LowerCut(s[0].lower), UpperCut(s[0].upper);
    CutOrder(lt, lo, lo, hi);
    assert In(lt, s, lo);
    if CutLess(lt, lo, LowerCut(t[0].lower)) { NormalStart(lt, t, lo); }
    NormalTail(lt, s, hi);
    assert !In(lt, t, hi);
    if lo == LowerCut(t[0].lower) && CutLess(lt, hi, UpperCut(t[0].upper)) {
      CutOrder(lt, lo, hi, lo);
    }
  }

  // ---------------------------------------------------------------- Constructors

  function None<V>(): Range<V> { Range([]) }
  function Any<V>(): Range<V> { Range([Interval(Unbounded, Unbounded)]) }
  function EqualTo<V>(v: V): Range<V> { Range([Interval(Included(v), Included(v))]) }
  function NotEqual<V>(v: V): Range<V> {
    Range([Interval(Unbounded, Excluded(v)), Interval(Excluded(v), Unbounded)])
  }
  function GreaterEqual<V>(v: V): Range<V> { Range([Interval(Included(v), Unbounded)]) }
  function GreaterThan<V>(v: V): Range<V> { Range([Interval(Excluded(v), Unbounded)]) }
  function LessThan<V>(v: V): Range<V> { Range([Interval(Unbounded, Excluded(v))]) }
  function LessEqual<V>(v: V): Range<V> { Range([Interval(Unbounded, Included(v))]) }
  function Between<V>(v1: V, v2: V): Range<V> { Range([Interval(Included(v1), Excluded(v2))]) }

  // ---------------------------------------------------------------- Complement

  function Flip<V>(b: Bound<V>): Bound<V> {
    match b
    case Included(v) => Excluded(v)
    case Excluded(v) => Included(v)
    case Unbounded => Unbounded
  }

  /** Only the first segment may start unbounded; the complement panics otherwise. */
  ghost predicate Negatable<V>(s: seq<Interval<V>>) {
    forall i :: 1 <= i < |s| ==> s[i].lower != Unbounded
  }

  function Complement<V>(start: Bound<V>, s: seq<Interval<V>>): seq<Interval<V>>
    decreases |s|
  {
    if s == [] then
      if start == Unbounded then [] else [Interval(start, Unbounded)]
    else
      [Interval(start, Flip(s[0].lower))] + Complement(Flip(s[0].upper), s[1..])
  }

  method NegateSegments<V>(start0: Bound<V>, s: seq<Interval<V>>) returns (r: Range<V>)
    requires forall i :: 0 <= i < |s| ==> s[i].lower != Unbounded
    ensures r == Range(Complement(start0, s))
  {
    var out: seq<Interval<V>> := [];
    var start := start0;
    var i := 0;
    while i < |s|
      invariant 0 <= i <= |s|
      invariant out + Complement(start, s[i..]) == Complement(start0, s)
    {
      var upper;
      match s[i].lower {
        case Included(v) => upper := Excluded(v);
        case Excluded(v) => upper := Included(v);
        case Unbounded => assert false;
      }
      ghost var before := out;
      out := out + [Interval(start, upper)];
      match s[i].upper {
        case Included(v) => start := Excluded(v);
        case Excluded(v) => start := Included(v);
        case Unbounded => start := Unbounded;
      }
      assert s[i..][1..] == s[i + 1..];
      AppendAssociates(before, [Interval(out[|out| - 1].lower, upper)], Complement(start, s[i + 1..]));
      i := i + 1;
    }
    if !start.Unbounded? {
      out := out + [Interval(start, Unbounded)];
    }
    r := Range(out);
  }

  function Negate<V>(r: Range<V>): Range<V> {
    if r.segments == [] then Any()
    else match (r.segments[0].lower, r.segments[0].upper)
      case (Unbounded, Unbounded) => None()
      case (Included(v), Unbounded) => LessThan(v)
      case (Excluded(v), Unbounded) => LessEqual(v)
      case (Unbounded, Included(v)) => Range(Complement(Excluded(v), r.segments[1..]))
      case (Unbounded, Excluded(v)) => Range(Complement(Included(v), r.segments[1..]))
      case _ => Range(Complement(Unbounded, r.segments))
  }

  /** The cut at which the remaining complement starts; an unbounded start stands for
      the top of the order once no segment is left. */
  ghost function StartCut<V>(start: Bound<V>, s: seq<Interval<V>>): Cut<V> {
    if start == Unbounded && s == [] then End else LowerCut(start)
  }

  lemma {:induction false} ComplementFlips<V(!new)>(lt: (V, V) -> bool, start: Bound<V>, s: seq<Interval<V>>, c: Cut<V>)
    requires TotalOrder(lt) && Normal(lt, s)
    requires s != [] ==> CutLess(lt, StartCut(start, s), LowerCut(s[0].lower))
    ensures Normal(lt, Complement(start, s))
    ensures Complement(start, s) != [] ==>
      LowerCut(Complement(start, s)[0].lower) == StartCut(start, s)
    ensures c != End ==>
      (In(lt, Complement(start, s), c) <==> !CutLess(lt, c, StartCut(start, s)) && !In(lt, s, c))
    decreases |s|
  {
    if s != [] {
      var next, rest := Flip(s[0].upper), s[1..];
      var hi := UpperCut(s[0].upper);
      if |s| > 1 { assert rest[0] == s[1]; } else { assert rest == []; }
      assert StartCut(next, rest) == hi;
      ComplementFlips(lt, next, rest, c);
      var comp := Complement(start, s);
      assert comp[1..] == Complement(next, rest);
      assert UpperCut(comp[0].upper) == LowerCut(s[0].lower);
      CutOrder(lt, StartCut(start, s), LowerCut(s[0].lower), hi);
      CutOrder(lt, c, LowerCut(s[0].lower), hi);
      CutOrder(lt, c, StartCut(start, s), LowerCut(s[0].lower));
      NormalTail(lt, s, c);
      if CutLess(lt, c, LowerCut(s[0].lower)) { NormalStart(lt, s, c); }
    }
  }

  lemma NormalIsNegatable<V(!new)>(lt: (V, V) -> bool, s: seq<Interval<V>>)
    requires Normal(lt, s)
    ensures Negatable(s)
  {
    if |s| > 1 {
      NormalIsNegatable(lt, s[1..]);
      forall i | 1 <= i < |s| ensures s[i].lower != Unbounded {
        assert s[i] == s[1..][i - 1];
      }
    }
  }

  lemma NegateFlips<V(!new)>(lt: (V, V) -> bool, r: Range<V>, c: Cut<V>)
    requires TotalOrder(lt) && Normal(lt, r.segments)
    ensures Normal(lt, Negate(r).segments)
    ensures c != End ==> (In(lt, Negate(r).segments, c) <==> !In(lt, r.segments, c))
  {
    var s := r.segments;
    if s != [] {
      if s[0].lower == Unbounded && s[0].upper != Unbounded {
        ComplementFlips(lt, Flip(s[0].upper), s[1..], c);
        NormalTail(lt, s, c);
      } else {
        if s[0].upper == Unbounded && |s| > 1 { CutOrder(lt, End, LowerCut(s[1].lower), End); }
        if s[0].lower != Unbounded { ComplementFlips(lt, Unbounded, s, c); }
        CutOrder(lt, Start, c, c);
      }
    }
  }

  /** Complementing twice gives back the very same segments. */
  lemma NegateInvolution<V(!new)>(lt: (V, V) -> bool, r: Range<V>)
    requires TotalOrder(lt) && Normal(lt, r.segments)
    ensures Negate(Negate(r)) == r
  {
    NegateFlips(lt, r, Start);
    NegateFlips(lt, Negate(r), Start);
    forall c ensures c != End ==> (In(lt, Negate(Negate(r)).segments, c) <==> In(lt, r.segments, c)) {
      NegateFlips(lt, r, c);
      NegateFlips(lt, Negate(r), c);
    }
    SameSegments(lt, Negate(Negate(r)), r);
  }

  /** Nothing lies past the end, so comparing the other cuts is enough. */
  lemma SameSegments<V(!new)>(lt: (V, V) -> bool, r: Range<V>, q: Range<V>)
    requires TotalOrder(lt) && Normal(lt, r.segments) && Normal(lt, q.segments)
    requires forall c :: c != End ==> (In(lt, r.segments, c) <==> In(lt, q.segments, c))
    ensures r == q
  {
    NothingPastEnd(lt, r.segments);
    NothingPastEnd(lt, q.segments);
    SameCutsSameSegments(lt, r.segments, q.segments);
  }

  lemma NothingPastEnd<V(!new)>(lt: (V, V) -> bool, s: seq<Interval<V>>)
    ensures !In(lt, s, End)
  {
    if s != [] { NothingPastEnd(lt, s[1..]); }
  }

  // ---------------------------------------------------------------- Intersection

  /** An interval with this upper bound ends before one with this lower bound starts. */
  function EndsBefore<V(==)>(lt: (V, V) -> bool, upper: Bound<V>, lower: Bound<V>): bool {
    if upper.Unbounded? || lower.Unbounded? then false
    else match Cmp(lt, upper.v, lower.v)
      case Less => true
      case Equal => !(upper.Included? && lower.Included?)
      case Greater => false
  }

  function LaterLower<V(==)>(lt: (V, V) -> bool, l: Bound<V>, r: Bound<V>): Bound<V> {
    if l.Unbounded? then r
    else if r.Unbounded? then l
    else match Cmp(lt, l.v, r.v)
      case Less => r
      case Equal => if l.Included? && r.Included? then r else Excluded(r.v)
      case Greater => l
  }

  /** The earlier of two upper bounds; whether the left and the right interval end there. */
  function EarlierUpper<V(==)>(lt: (V, V) -> bool, l: Bound<V>, r: Bound<V>): (Bound<V>, bool, bool) {
    if l.Unbounded? && r.Unbounded? then (Unbounded, true, true)
    else if l.Unbounded? then (r, false, true)
    else if r.Unbounded? then (l, true, false)
    else match Cmp(lt, l.v, r.v)
      case Less => (l, true, false)
      case Equal =>
        if l.Included? && r.Excluded? then (Excluded(r.v), false, true)
        else if l.Excluded? && r.Excluded? then (Excluded(r.v), true, true)
        else if l.Excluded? then (Excluded(l.v), true, false)
        else (Included(r.v), true, true)
      case Greater => (r, false, true)
  }

  function Intersect<V(==)>(lt: (V, V) -> bool, a: seq<Interval<V>>, b: seq<Interval<V>>): seq<Interval<V>>
    decreases |a| + |b|
  {
    if a == [] || b == [] then []
    else if EndsBefore(lt, a[0].upper, b[0].lower) then Intersect(lt, a[1..], b)
    else if EndsBefore(lt, b[0].upper, a[0].lower) then Intersect(lt, a, b[1..])
    else
      var (upper, leftEnds, rightEnds) := EarlierUpper(lt, a[0].upper, b[0].upper);
      [Interval(LaterLower(lt, a[0].lower, b[0].lower), upper)] +
      Intersect(lt, if leftEnds then a[1..] else a, if rightEnds then b[1..] else b)
  }

  /** The same walk over positions i and j, as the loop performs it. */
  ghost function Walk<V>(lt: (V, V) -> bool, a: seq<Interval<V>>, b: seq<Interval<V>>, i: nat, j: nat): seq<Interval<V>>
    requires i <= |a| && j <= |b|
    decreases |a| - i + |b| - j
  {
    if i == |a| || j == |b| then []
    else if EndsBefore(lt, a[i].upper, b[j].lower) then Walk(lt, a, b, i + 1, j)
    else if EndsBefore(lt, b[j].upper, a[i].lower) then Walk(lt, a, b, i, j + 1)
    else
      var (upper, leftEnds, rightEnds) := EarlierUpper(lt, a[i].upper, b[j].upper);
      [Interval(LaterLower(lt, a[i].lower, b[j].lower), upper)] +
      Walk(lt, a, b, if leftEnds then i + 1 else i, if rightEnds then j + 1 else j)
  }

  lemma {:induction false} WalkIntersects<V>(lt: (V, V) -> bool, a: seq<Interval<V>>, b: seq<Interval<V>>, i: nat, j: nat)
    requires i <= |a| && j <= |b|
    ensures Walk(lt, a, b, i, j) == Intersect(lt, a[i..], b[j..])
    decreases |a| - i + |b| - j
  {
    if i < |a| && j < |b| {
      assert a[i..][1..] == a[i + 1..] && b[j..][1..] == b[j + 1..];
      if EndsBefore(lt, a[i].upper, b[j].lower) {
        WalkIntersects(lt, a, b, i + 1, j);
      } else if EndsBefore(lt, b[j].upper, a[i].lower) {
        WalkIntersects(lt, a, b, i, j + 1);
      } else {
        var (_, leftEnds, rightEnds) := EarlierUpper(lt, a[i].upper, b[j].upper);
        WalkIntersects(lt, a, b, if leftEnds then i + 1 else i, if rightEnds then j + 1 else j);
      }
    }
  }

  method DisjointBelow<V(==)>(lt: (V, V) -> bool, upper: Bound<V>, lower: Bound<V>) returns (disjoint: bool)
    ensures disjoint == EndsBefore(lt, upper, lower)
  {
    if !upper.Unbounded? && !lower.Unbounded? {
      match Cmp(lt, upper.v, lower.v) {
        case Less => return true;
        case Equal => return !(upper.Included? && lower.Included?);
        case Greater =>
      }
    }
    return false;
  }

  method OverlapLower<V(==)>(lt: (V, V) -> bool, left: Bound<V>, right: Bound<V>) returns (lower: Bound<V>)
    ensures lower == LaterLower(lt, left, right)
  {
    match (left, right) {
      case (Unbounded, _) => lower := right;
      case (_, Unbounded) => lower := left;
      case (_, _) =>
        match Cmp(lt, left.v, right.v) {
          case Less => lower := right;
          case Equal =>
            match (left, right) {
              case (Included(_), Excluded(v)) => lower := Excluded(v);
              case (Excluded(_), Excluded(v)) => lower := Excluded(v);
              case (Excluded(v), Included(_)) => lower := Excluded(v);
              case (Included(_), Included(v)) => lower := Included(v);
            }
          case Greater => lower := left;
        }
    }
  }

  method OverlapUpper<V(==)>(lt: (V, V) -> bool, left: Bound<V>, right: Bound<V>)
    returns (upper: Bound<V>, leftEnds: bool, rightEnds: bool)
    ensures (upper, leftEnds, rightEnds) == EarlierUpper(lt, left, right)
  {
    match (left, right) {
      case (Unbounded, Unbounded) => upper, leftEnds, rightEnds := Unbounded, true, true;
      case (Unbounded, _) => upper, leftEnds, rightEnds := right, false, true;
      case (_, Unbounded) => upper, leftEnds, rightEnds := left, true, false;
      case (_, _) =>
        match Cmp(lt, left.v, right.v) {
          case Less => upper, leftEnds, rightEnds := left, true, false;
          case Equal =>
            match (left, right) {
              case (Included(_), Excluded(v)) => upper, leftEnds, rightEnds := Excluded(v), false, true;
              case (Excluded(_), Excluded(v)) => upper, leftEnds, rightEnds := Excluded(v), true, true;
              case (Excluded(v), Included(_)) => upper, leftEnds, rightEnds := Excluded(v), true, false;
              case (Included(_), Included(v)) => upper, leftEnds, rightEnds := Included(v), true, true;
            }
          case Greater => upper, leftEnds, rightEnds := right, false, true;
        }
    }
  }

  method Intersection<V(==)>(lt: (V, V) -> bool, self: Range<V>, other: Range<V>) returns (r: Range<V>)
    ensures r == Range(Intersect(lt, self.segments, other.segments))
  {
    var out: seq<Interval<V>> := [];
    var a, b := self.segments, other.segments;
    var i, j := 0, 0;
    while i < |a| && j < |b|
      invariant 0 <= i <= |a| && 0 <= j <= |b|
      invariant out + Walk(lt, a, b, i, j) == Walk(lt, a, b, 0, 0)
      decreases |a| - i + |b| - j
    {
      var left, right := a[i], b[j];
      var leftBelow := DisjointBelow(lt, left.upper, right.lower);
      if leftBelow {
        i := i + 1;
        continue;
      }
      var rightBelow := DisjointBelow(lt, right.upper, left.lower);
      if rightBelow {
        j := j + 1;
        continue;
      }
      var lower := OverlapLower(lt, left.lower, right.lower);
      var upper, leftEnds, rightEnds := OverlapUpper(lt, left.upper, right.upper);
      i, j := if leftEnds then i + 1 else i, if rightEnds then j + 1 else j;
      AppendAssociates(out, [Interval(lower, upper)], Walk(lt, a, b, i, j));
      out := out + [Interval(lower, upper)];
    }
    WalkIntersects(lt, a, b, 0, 0);
    assert a[0..] == a && b[0..] == b;
    r := Range(out);
  }

  /** What the bound comparisons of the two-pointer walk decide, in terms of cuts. */
  lemma BoundsAsCuts<V(!new)>(lt: (V, V) -> bool, l: Bound<V>, r: Bound<V>)
    requires TotalOrder(lt)
    ensures EndsBefore(lt, l, r) <==> !CutLess(lt, LowerCut(r), UpperCut(l))
    ensures LowerCut(LaterLower(lt, l, r)) ==
      if CutLess(lt, LowerCut(l), LowerCut(r)) then LowerCut(r) else LowerCut(l)
    ensures UpperCut(EarlierUpper(lt, l, r).0) ==
      if CutLess(lt, UpperCut(l), UpperCut(r)) then UpperCut(l) else UpperCut(r)
    ensures EarlierUpper(lt, l, r).1 <==> !CutLess(lt, UpperCut(r), UpperCut(l))
    ensures EarlierUpper(lt, l, r).2 <==> !CutLess(lt, UpperCut(l), UpperCut(r))
  {
  }

  /** A segment of a that ends before b begins can be dropped. */
  lemma DropDisjoint<V(!new)>(lt: (V, V) -> bool, a: seq<Interval<V>>, b: seq<Interval<V>>, c: Cut<V>)
    requires TotalOrder(lt) && Normal(lt, a) && Normal(lt, b) && a != [] && b != []
    requires EndsBefore(lt, a[0].upper, b[0].lower)
    ensures In(lt, a, c) && In(lt, b, c) <==> In(lt, a[1..], c) && In(lt, b, c)
  {
    var ua, lb := UpperCut(a[0].upper), LowerCut(b[0].lower);
    BoundsAsCuts(lt, a[0].upper, b[0].lower);
    CutOrder(lt, c, ua, lb);
    CutOrder(lt, ua, lb, c);
    NormalTail(lt, a, c);
    if CutLess(lt, c, lb) { NormalStart(lt, b, c); }
  }

  /** Before its upper bound, a first segment counts from its lower bound on. */
  lemma BeforeUpper<V(!new)>(lt: (V, V) -> bool, a: seq<Interval<V>>, c: Cut<V>)
    requires TotalOrder(lt) && Normal(lt, a) && a != []
    requires CutLess(lt, c, UpperCut(a[0].upper))
    ensures In(lt, a, c) <==> !CutLess(lt, c, LowerCut(a[0].lower))
  {
    NormalTail(lt, a, c);
  }

  /** Members of the intersection are the common members, cut by cut. */
  lemma {:induction false} IntersectIn<V(!new)>(lt: (V, V) -> bool, a: seq<Interval<V>>, b: seq<Interval<V>>, c: Cut<V>)
    requires TotalOrder(lt) && Normal(lt, a) && Normal(lt, b)
    ensures In(lt, Intersect(lt, a, b), c) <==> In(lt, a, c) && In(lt, b, c)
    decreases |a| + |b|
  {
    if a == [] || b == [] {
    } else if EndsBefore(lt, a[0].upper, b[0].lower) {
      IntersectIn(lt, a[1..], b, c);
      DropDisjoint(lt, a, b, c);
    } else if EndsBefore(lt, b[0].upper, a[0].lower) {
      IntersectIn(lt, a, b[1..], c);
      DropDisjoint(lt, b, a, c);
    } else {
      var (upper, leftEnds, rightEnds) := EarlierUpper(lt, a[0].upper, b[0].upper);
      var s, t := if leftEnds then a[1..] else a, if rightEnds then b[1..] else b;
      IntersectIn(lt, s, t, c);
      var r := Intersect(lt, a, b);
      assert r[1..] == Intersect(lt, s, t);
      OverlapIn(lt, a, b, r, c);
    }
  }

  lemma OverlapIn<V(!new)>(lt: (V, V) -> bool, a: seq<Interval<V>>, b: seq<Interval<V>>, r: seq<Interval<V>>, c: Cut<V>)
    requires TotalOrder(lt) && Normal(lt, a) && Normal(lt, b) && a != [] && b != [] && r != []
    requires r[0].lower == LaterLower(lt, a[0].lower, b[0].lower)
    requires r[0].upper == EarlierUpper(lt, a[0].upper, b[0].upper).0
    requires
      var (_, leftEnds, rightEnds) := EarlierUpper(lt, a[0].upper, b[0].upper);
      In(lt, r[1..], c) <==>
        In(lt, if leftEnds then a[1..] else a, c) && In(lt, if rightEnds then b[1..] else b, c)
    ensures In(lt, r, c) <==> In(lt, a, c) && In(lt, b, c)
  {
    var ua, ub := UpperCut(a[0].upper), UpperCut(b[0].upper);
    BoundsAsCuts(lt, a[0].upper, b[0].upper);
    BoundsAsCuts(lt, a[0].lower, b[0].lower);
    CutOrder(lt, c, ua, ub);
    CutOrder(lt, c, ub, ua);
    NormalTail(lt, a, c);
    NormalTail(lt, b, c);
    if CutLess(lt, c, UpperCut(r[0].upper)) {
      BeforeUpper(lt, a, c);
      BeforeUpper(lt, b, c);
      var la, lb := LowerCut(a[0].lower), LowerCut(b[0].lower);
      CutOrder(lt, c, la, lb);
      CutOrder(lt, c, lb, la);
    }
  }

  ghost predicate StartsFrom<V>(lt: (V, V) -> bool, s: seq<Interval<V>>, c: Cut<V>) {
    s != [] ==> !CutLess(lt, LowerCut(s[0].lower), c)
  }

  /** The walk preserves the normal form, and starts no earlier than either input. */
  lemma {:induction false} IntersectNormal<V(!new)>(lt: (V, V) -> bool, a: seq<Interval<V>>, b: seq<Interval<V>>)
    requires TotalOrder(lt) && Normal(lt, a) && Normal(lt, b)
    ensures Normal(lt, Intersect(lt, a, b))
    ensures a != [] ==> StartsFrom(lt, Intersect(lt, a, b), LowerCut(a[0].lower))
    ensures b != [] ==> StartsFrom(lt, Intersect(lt, a, b), LowerCut(b[0].lower))
    decreases |a| + |b|
  {
    if a == [] || b == [] {
    } else if EndsBefore(lt, a[0].upper, b[0].lower) {
      IntersectNormal(lt, a[1..], b);
      LaterStart(lt, a, Intersect(lt, a[1..], b));
    } else if EndsBefore(lt, b[0].upper, a[0].lower) {
      IntersectNormal(lt, a, b[1..]);
      LaterStart(lt, b, Intersect(lt, a, b[1..]));
    } else {
      var (upper, leftEnds, rightEnds) := EarlierUpper(lt, a[0].upper, b[0].upper);
      var s, t := if leftEnds then a[1..] else a, if rightEnds then b[1..] else b;
      IntersectNormal(lt, s, t);
      var r := Intersect(lt, a, b);
      assert r[1..] == Intersect(lt, s, t);
      if leftEnds { LaterStart(lt, a, r[1..]); } else { LaterStart(lt, b, r[1..]); }
      OverlapNormal(lt, a[0], b[0], r);
    }
  }

  /** What starts no earlier than the second segment of a starts after its first one. */
  lemma LaterStart<V(!new)>(lt: (V, V) -> bool, a: seq<Interval<V>>, r: seq<Interval<V>>)
    requires TotalOrder(lt) && Normal(lt, a) && a != []
    requires |a| > 1 ==> StartsFrom(lt, r, LowerCut(a[1].lower))
    requires |a| == 1 ==> r == []
    ensures r != [] ==> CutLess(lt, UpperCut(a[0].upper), LowerCut(r[0].lower))
    ensures StartsFrom(lt, r, LowerCut(a[0].lower))
  {
    if r != [] {
      CutOrder(lt, UpperCut(a[0].upper), LowerCut(a[1].lower), LowerCut(r[0].lower));
      CutOrder(lt, LowerCut(a[0].lower), UpperCut(a[0].upper), LowerCut(r[0].lower));
      CutOrder(lt, LowerCut(r[0].lower), LowerCut(a[1].lower), LowerCut(r[0].lower));
    }
  }

  lemma OverlapNormal<V(!new)>(lt: (V, V) -> bool, a: Interval<V>, b: Interval<V>, r: seq<Interval<V>>)
    requires TotalOrder(lt) && r != [] && Normal(lt, r[1..])
    requires Normal(lt, [a]) && Normal(lt, [b])
    requires !EndsBefore(lt, a.upper, b.lower) && !EndsBefore(lt, b.upper, a.lower)
    requires r[0].lower == LaterLower(lt, a.lower, b.lower)
    requires r[0].upper == EarlierUpper(lt, a.upper, b.upper).0
    requires |r| > 1 ==>
      CutLess(lt, UpperCut(if EarlierUpper(lt, a.upper, b.upper).1 then a.upper else b.upper), LowerCut(r[1].lower))
    ensures Normal(lt, r)
    ensures StartsFrom(lt, r, LowerCut(a.lower)) && StartsFrom(lt, r, LowerCut(b.lower))
  {
    BoundsAsCuts(lt, a.upper, b.lower);
    BoundsAsCuts(lt, b.upper, a.lower);
    BoundsAsCuts(lt, a.lower, b.lower);
    BoundsAsCuts(lt, a.upper, b.upper);
    CutOrder(lt, LowerCut(a.lower), LowerCut(b.lower), Start);
    CutOrder(lt, LowerCut(b.lower), LowerCut(a.lower), Start);
    CutOrder(lt, UpperCut(a.upper), UpperCut(b.upper), Start);
  }

  /** Computed by De Morgan's law only. */
  function Union<V(==)>(lt: (V, V) -> bool, a: Range<V>, b: Range<V>): Range<V> {
    Negate(Range(Intersect(lt, Negate(a).segments, Negate(b).segments)))
  }

  // ---------------------------------------------------------------- Laws

  /** The three operations on ranges: normal form is kept, and at every cut they are
      complement, meet and join. */
  lemma OperationsIn<V(!new)>(lt: (V, V) -> bool, a: Range<V>, b: Range<V>)
    requires TotalOrder(lt) && Normal(lt, a.segments) && Normal(lt, b.segments)
    ensures Normal(lt, Negate(a).segments)
    ensures Normal(lt, Intersect(lt, a.segments, b.segments))
    ensures Normal(lt, Union(lt, a, b).segments)
    ensures forall c :: c != End ==> (In(lt, Negate(a).segments, c) <==> !In(lt, a.segments, c))
    ensures forall c ::
      In(lt, Intersect(lt, a.segments, b.segments), c) <==> In(lt, a.segments, c) && In(lt, b.segments, c)
    ensures forall c :: c != End ==>
      (In(lt, Union(lt, a, b).segments, c) <==> In(lt, a.segments, c) || In(lt, b.segments, c))
  {
    NegateFlips(lt, a, Start);
    NegateFlips(lt, b, Start);
    IntersectNormal(lt, a.segments, b.segments);
    var both := Range(Intersect(lt, Negate(a).segments, Negate(b).segments));
    IntersectNormal(lt, Negate(a).segments, Negate(b).segments);
    NegateFlips(lt, both, Start);
    forall c ensures c != End ==> (In(lt, Negate(a).segments, c) <==> !In(lt, a.segments, c)) {
      NegateFlips(lt, a, c);
    }
    forall c
      ensures In(lt, Intersect(lt, a.segments, b.segments), c) <==> In(lt, a.segments, c) && In(lt, b.segments, c)
    {
      IntersectIn(lt, a.segments, b.segments, c);
    }
    forall c
      ensures c != End ==>
        (In(lt, Union(lt, a, b).segments, c) <==> In(lt, a.segments, c) || In(lt, b.segments, c))
    {
      NegateFlips(lt, a, c);
      NegateFlips(lt, b, c);
      IntersectIn(lt, Negate(a).segments, Negate(b).segments, c);
      NegateFlips(lt, both, c);
    }
  }

  /** Membership after each operation, for every version. */
  lemma OperationsContain<V(!new)>(lt: (V, V) -> bool, a: Range<V>, b: Range<V>, v: V)
    requires TotalOrder(lt) && Normal(lt, a.segments) && Normal(lt, b.segments)
    ensures Member(lt, Negate(a), v) <==> !Member(lt, a, v)
    ensures Member(lt, Range(Intersect(lt, a.segments, b.segments)), v) <==> Member(lt, a, v) && Member(lt, b, v)
    ensures Member(lt, Union(lt, a, b), v) <==> Member(lt, a, v) || Member(lt, b, v)
  {
    OperationsIn(lt, a, b);
    MemberIsCut(lt, a.segments, v);
    MemberIsCut(lt, b.segments, v);
    MemberIsCut(lt, Negate(a).segments, v);
    MemberIsCut(lt, Intersect(lt, a.segments, b.segments), v);
    MemberIsCut(lt, Union(lt, a, b).segments, v);
  }

  /** Segment lists, not only sets of versions, obey the laws of a Boolean algebra, over
      every total order. */
  lemma Commutative<V(!new)>(lt: (V, V) -> bool, a: Range<V>, b: Range<V>)
    requires TotalOrder(lt) && Normal(lt, a.segments) && Normal(lt, b.segments)
    ensures Intersect(lt, a.segments, b.segments) == Intersect(lt, b.segments, a.segments)
    ensures Union(lt, a, b) == Union(lt, b, a)
  {
    OperationsIn(lt, a, b);
    OperationsIn(lt, b, a);
    SameSegments(lt, Range(Intersect(lt, a.segments, b.segments)), Range(Intersect(lt, b.segments, a.segments)));
    SameSegments(lt, Union(lt, a, b), Union(lt, b, a));
  }

  lemma Associative<V(!new)>(lt: (V, V) -> bool, a: Range<V>, b: Range<V>, d: Range<V>)
    requires TotalOrder(lt)
    requires Normal(lt, a.segments) && Normal(lt, b.segments) && Normal(lt, d.segments)
    ensures Intersect(lt, Intersect(lt, a.segments, b.segments), d.segments) ==
      Intersect(lt, a.segments, Intersect(lt, b.segments, d.segments))
    ensures Union(lt, Union(lt, a, b), d) == Union(lt, a, Union(lt, b, d))
  {
    OperationsIn(lt, a, b);
    OperationsIn(lt, b, d);
    var ab, bd := Range(Intersect(lt, a.segments, b.segments)), Range(Intersect(lt, b.segments, d.segments));
    OperationsIn(lt, ab, d);
    OperationsIn(lt, a, bd);
    SameSegments(lt, Range(Intersect(lt, ab.segments, d.segments)), Range(Intersect(lt, a.segments, bd.segments)));
    OperationsIn(lt, Union(lt, a, b), d);
    OperationsIn(lt, a, Union(lt, b, d));
    SameSegments(lt, Union(lt, Union(lt, a, b), d), Union(lt, a, Union(lt, b, d)));
  }

  lemma Distributive<V(!new)>(lt: (V, V) -> bool, a: Range<V>, b: Range<V>, d: Range<V>)
    requires TotalOrder(lt)
    requires Normal(lt, a.segments) && Normal(lt, b.segments) && Normal(lt, d.segments)
    ensures Range(Intersect(lt, a.segments, Union(lt, b, d).segments)) ==
      Union(lt, Range(Intersect(lt, a.segments, b.segments)), Range(Intersect(lt, a.segments, d.segments)))
  {
    var ab, ad := Range(Intersect(lt, a.segments, b.segments)), Range(Intersect(lt, a.segments, d.segments));
    var bd := Union(lt, b, d);
    OperationsIn(lt, b, d);
    OperationsIn(lt, a, b);
    OperationsIn(lt, a, d);
    OperationsIn(lt, a, bd);
    OperationsIn(lt, ab, ad);
    forall c ensures c != End ==>
      (In(lt, Intersect(lt, a.segments, bd.segments), c) <==> In(lt, Union(lt, ab, ad).segments, c))
    {
      assert c != End ==> (In(lt, bd.segments, c) <==> In(lt, b.segments, c) || In(lt, d.segments, c));
    }
    SameSegments(lt, Range(Intersect(lt, a.segments, bd.segments)), Union(lt, ab, ad));
  }

  lemma DistributiveUnion<V(!new)>(lt: (V, V) -> bool, a: Range<V>, b: Range<V>, d: Range<V>)
    requires TotalOrder(lt)
    requires Normal(lt, a.segments) && Normal(lt, b.segments) && Normal(lt, d.segments)
    ensures Union(lt, a, Range(Intersect(lt, b.segments, d.segments))) ==
      Range(Intersect(lt, Union(lt, a, b).segments, Union(lt, a, d).segments))
  {
    var bd := Range(Intersect(lt, b.segments, d.segments));
    var ab, ad := Union(lt, a, b), Union(lt, a, d);
    OperationsIn(lt, b, d);
    OperationsIn(lt, a, b);
    OperationsIn(lt, a, d);
    OperationsIn(lt, a, bd);
    OperationsIn(lt, ab, ad);
    forall c ensures c != End ==>
      (In(lt, Union(lt, a, bd).segments, c) <==> In(lt, Intersect(lt, ab.segments, ad.segments), c))
    {
      assert In(lt, bd.segments, c) <==> In(lt, b.segments, c) && In(lt, d.segments, c);
    }
    SameSegments(lt, Union(lt, a, bd), Range(Intersect(lt, ab.segments, ad.segments)));
  }

  lemma ComplementLaws<V(!new)>(lt: (V, V) -> bool, a: Range<V>)
    requires TotalOrder(lt) && Normal(lt, a.segments)
    ensures Range(Intersect(lt, Negate(a).segments, a.segments)) == None()
    ensures Union(lt, Negate(a), a) == Any()
    ensures Negate(a) != a
  {
    OperationsIn(lt, a, a);
    OperationsIn(lt, Negate(a), a);
    AnyHoldsAll(lt);
    SameSegments(lt, Range(Intersect(lt, Negate(a).segments, a.segments)), None());
    SameSegments(lt, Union(lt, Negate(a), a), Any());
    assert In(lt, Negate(a).segments, Start) <==> !In(lt, a.segments, Start);
  }

  lemma AnyHoldsAll<V(!new)>(lt: (V, V) -> bool)
    ensures Normal(lt, Any<V>().segments)
    ensures forall c: Cut<V> :: c != End ==> In(lt, Any<V>().segments, c)
  {
  }

  /** Units, absorbing element and idempotence, as segment lists. */
  lemma UnitLaws<V(!new)>(lt: (V, V) -> bool, a: Range<V>)
    requires TotalOrder(lt) && Normal(lt, a.segments)
    ensures Range(Intersect(lt, Any<V>().segments, a.segments)) == a
    ensures Range(Intersect(lt, None<V>().segments, a.segments)) == None()
    ensures Range(Intersect(lt, a.segments, a.segments)) == a
  {
    OperationsIn(lt, a, a);
    AnyHoldsAll(lt);
    OperationsIn(lt, Any(), a);
    SameSegments(lt, Range(Intersect(lt, Any<V>().segments, a.segments)), a);
    SameSegments(lt, Range(Intersect(lt, a.segments, a.segments)), a);
  }

  /** Touching ranges such as [a, b) and [b, c) merge into one segment. */
  lemma UnionMerges<V(!new)>(lt: (V, V) -> bool, a: V, b: V, c: V)
    requires TotalOrder(lt) && lt(a, b) && lt(b, c)
    ensures Union(lt, Between(a, b), Between(b, c)) == Between(a, c)
  {
    OperationsIn(lt, Between(a, b), Between(b, c));
    forall x: Cut<V>
      ensures In(lt, Between(a, b).segments, x) || In(lt, Between(b, c).segments, x) <==> In(lt, Between(a, c).segments, x)
    {
      CutOrder(lt, x, Before(b), Before(c));
      CutOrder(lt, x, Before(a), Before(b));
      CutOrder(lt, Before(a), Before(b), x);
      OneSegment(lt, Between(a, b).segments[0], x);
      OneSegment(lt, Between(b, c).segments[0], x);
      OneSegment(lt, Between(a, c).segments[0], x);
    }
    SameSegments(lt, Union(lt, Between(a, b), Between(b, c)), Between(a, c));
  }

  lemma OneSegment<V>(lt: (V, V) -> bool, s: Interval<V>, x: Cut<V>)
    ensures In(lt, [s], x) <==> !CutLess(lt, x, LowerCut(s.lower)) && CutLess(lt, x, UpperCut(s.upper))
  {
    assert [s][1..] == [];
  }

  /** A version is a member exactly when intersecting with its singleton leaves something. */
  lemma ContainsByIntersection<V(!new)>(lt: (V, V) -> bool, a: Range<V>, v: V)
    requires TotalOrder(lt) && Normal(lt, a.segments)
    ensures Member(lt, a, v) <==> Intersect(lt, a.segments, EqualTo(v).segments) != []
  {
    var both := Intersect(lt, a.segments, EqualTo(v).segments);
    OperationsIn(lt, a, EqualTo(v));
    MemberIsCut(lt, a.segments, v);
    OneSegment(lt, EqualTo(v).segments[0], Before(v));
    if both != [] {
      var c := LowerCut(both[0].lower);
      CutOrder(lt, c, c, c);
      assert In(lt, both, c);
      OneSegment(lt, EqualTo(v).segments[0], c);
      CutOrder(lt, c, Before(v), c);
      CutOrder(lt, Before(v), c, After(v));
      assert c == Before(v);
    }
  }

  // ---------------------------------------------------------------- Members decide segments

  ghost predicate HasBetween<V(!new)>(lt: (V, V) -> bool, a: V, b: V) { exists m :: lt(a, m) && lt(m, b) }
  ghost predicate HasAbove<V(!new)>(lt: (V, V) -> bool, a: V) { exists m :: lt(a, m) }
  ghost predicate HasBelow<V(!new)>(lt: (V, V) -> bool, a: V) { exists m :: lt(m, a) }

  /** Between any two cuts there is a version: no two neighbours and no endpoints. */
  ghost predicate Dense<V(!new)>(lt: (V, V) -> bool) {
    && (forall a, b {:trigger HasBetween(lt, a, b)} :: lt(a, b) ==> HasBetween(lt, a, b))
    && (forall a :: HasAbove(lt, a))
    && (forall a :: HasBelow(lt, a))
  }

  /** Ranges in normal form with the same members have the same segments. */
  ghost predicate MembersDecideSegments<V(!new)>(lt: (V, V) -> bool) {
    forall r: Range<V>, q: Range<V> ::
      Normal(lt, r.segments) && Normal(lt, q.segments) && (forall v :: Member(lt, r, v) <==> Member(lt, q, v)) ==> r == q
  }

  lemma VersionBetween<V(!new)>(lt: (V, V) -> bool, a: Cut<V>, b: Cut<V>, some: V) returns (v: V)
    requires TotalOrder(lt) && Dense(lt) && CutLess(lt, a, b)
    ensures !CutLess(lt, Before(v), a) && CutLess(lt, Before(v), b)
  {
    match (a, b) {
      case (Start, End) => v := some;
      case (Start, Before(y)) => assert HasBelow(lt, y); v :| lt(v, y);
      case (Start, After(y)) => v := y;
      case (Before(x), _) => v := x;
      case (After(x), Before(y)) => assert HasBetween(lt, x, y); v :| lt(x, v) && lt(v, y);
      case (After(x), After(y)) => v := y;
      case (After(x), End) => assert HasAbove(lt, x); v :| lt(x, v);
    }
  }

  /** Where two normal forms disagree at a cut, some version tells them apart. */
  lemma DisagreementHasVersion<V(!new)>(lt: (V, V) -> bool, r: Range<V>, q: Range<V>, some: V)
    requires TotalOrder(lt) && Dense(lt) && Normal(lt, r.segments) && Normal(lt, q.segments)
    requires forall v :: Member(lt, r, v) <==> Member(lt, q, v)
    ensures r == q
  {
    var only := Intersect(lt, r.segments, Negate(q).segments);
    var missing := Intersect(lt, q.segments, Negate(r).segments);
    OperationsIn(lt, q, q);
    OperationsIn(lt, r, r);
    OperationsIn(lt, r, Negate(q));
    OperationsIn(lt, q, Negate(r));
    NoMembersNoSegments(lt, r, q, some);
    NoMembersNoSegments(lt, q, r, some);
    forall c ensures c != End ==> (In(lt, r.segments, c) <==> In(lt, q.segments, c)) {
      assert !In(lt, only, c) && !In(lt, missing, c);
    }
    SameSegments(lt, r, q);
  }

  lemma NoMembersNoSegments<V(!new)>(lt: (V, V) -> bool, r: Range<V>, q: Range<V>, some: V)
    requires TotalOrder(lt) && Dense(lt) && Normal(lt, r.segments) && Normal(lt, q.segments)
    requires forall v :: Member(lt, r, v) ==> Member(lt, q, v)
    ensures Intersect(lt, r.segments, Negate(q).segments) == []
  {
    OperationsIn(lt, q, q);
    OperationsIn(lt, r, Negate(q));
    var only := Intersect(lt, r.segments, Negate(q).segments);
    if only != [] {
      var v := VersionBetween(lt, LowerCut(only[0].lower), UpperCut(only[0].upper), some);
      assert In(lt, only, Before(v));
      MemberIsCut(lt, only, v);
      OperationsContain(lt, r, Negate(q), v);
      OperationsContain(lt, q, q, v);
      assert false;
    }
  }

  /** Equality of segment lists is equality of member sets exactly over the dense orders
      without endpoints; elsewhere, as over the integers, a normal form may be memberless. */
  lemma MembersDecideSegmentsIffDense<V(!new)>(lt: (V, V) -> bool, some: V)
    requires TotalOrder(lt)
    ensures MembersDecideSegments(lt) <==> Dense(lt)
  {
    if Dense(lt) {
      forall r: Range<V>, q: Range<V>
        | Normal(lt, r.segments) && Normal(lt, q.segments) && (forall v :: Member(lt, r, v) <==> Member(lt, q, v))
        ensures r == q
      {
        DisagreementHasVersion(lt, r, q, some);
      }
    }
    if MembersDecideSegments(lt) {
      forall a, b {:trigger HasBetween(lt, a, b)} | lt(a, b) ensures HasBetween(lt, a, b) {
        var v := SegmentHasMember(lt, Interval(Excluded(a), Excluded(b)));
      }
      forall a ensures HasAbove(lt, a) { var v := SegmentHasMember(lt, Interval(Excluded(a), Unbounded)); }
      forall a ensures HasBelow(lt, a) { var v := SegmentHasMember(lt, Interval(Unbounded, Excluded(a))); }
    }
  }

  lemma SegmentHasMember<V(!new)>(lt: (V, V) -> bool, s: Interval<V>) returns (v: V)
    requires MembersDecideSegments(lt) && Normal(lt, [s])
    ensures SegmentContains(lt, s, v)
  {
    var r, none := Range([s]), None<V>();
    assert Normal(lt, none.segments) && r != none;
    v :| !(Member(lt, r, v) <==> Member(lt, none, v));
    SingleMember(lt, s);
  }

  lemma SingleMember<V>(lt: (V, V) -> bool, s: Interval<V>)
    ensures forall v :: Member(lt, Range([s]), v) <==> SegmentContains(lt, s, v)
  {
    assert [s][0] == s;
  }

  // ---------------------------------------------------------------- Constructors keep normal form

  lemma ConstructorsNormal<V(!new)>(lt: (V, V) -> bool, v: V, w: V)
    requires TotalOrder(lt)
    ensures Normal(lt, None<V>().segments) && Normal(lt, Any<V>().segments)
    ensures Normal(lt, EqualTo(v).segments) && Normal(lt, NotEqual(v).segments)
    ensures Normal(lt, GreaterEqual(v).segments) && Normal(lt, GreaterThan(v).segments)
    ensures Normal(lt, LessThan(v).segments) && Normal(lt, LessEqual(v).segments)
    ensures Normal(lt, Between(v, w).segments) <==> lt(v, w)
    ensures Negate(LessThan(v)) == GreaterEqual(v) && Negate(LessEqual(v)) == GreaterThan(v)
    ensures Negate(EqualTo(v)) == NotEqual(v) && Negate(Any<V>()) == None()
    ensures lt(v, w) ==> Union(lt, LessThan(v), GreaterEqual(w)) == Negate(Between(v, w))
  {
    assert [Interval(Included(v), Included(v))][1..] == [];
    if lt(v, w) {
      assert Intersect(lt, GreaterEqual(v).segments, LessThan(w).segments) == Between(v, w).segments;
    }
  }

  lemma OneSegmentContains<V(!new)>(lt: (V, V) -> bool, lower: Bound<V>, upper: Bound<V>, w: V)
    ensures Member(lt, Range([Interval(lower, upper)]), w) <==> SegmentContains(lt, Interval(lower, upper), w)
  {
    var r := Range([Interval(lower, upper)]);
    assert r.segments[0] == Interval(lower, upper);
  }

  /** Which versions a constructed range holds. */
  lemma ConstructorsContain<V(!new)>(lt: (V, V) -> bool, u: V, v: V, w: V)
    requires TotalOrder(lt)
    ensures !Member(lt, None<V>(), w) && Member(lt, Any<V>(), w)
    ensures (Member(lt, EqualTo(v), w) <==> w == v) && (Member(lt, NotEqual(v), w) <==> w != v)
    ensures (Member(lt, GreaterThan(v), w) <==> lt(v, w)) && (Member(lt, GreaterEqual(v), w) <==> w == v || lt(v, w))
    ensures (Member(lt, LessThan(v), w) <==> lt(w, v)) && (Member(lt, LessEqual(v), w) <==> w == v || lt(w, v))
    ensures Member(lt, Between(u, v), w) <==> (w == u || lt(u, w)) && lt(w, v)
  {
    OneSegmentContains(lt, Unbounded, Unbounded, w);
    OneSegmentContains(lt, Included(v), Included(v), w);
    OneSegmentContains(lt, Excluded(v), Unbounded, w);
    OneSegmentContains(lt, Included(v), Unbounded, w);
    OneSegmentContains(lt, Unbounded, Excluded(v), w);
    OneSegmentContains(lt, Unbounded, Included(v), w);
    OneSegmentContains(lt, Included(u), Excluded(v), w);
    var r := NotEqual(v);
    assert |r.segments| == 2;
    assert SegmentContains(lt, r.segments[0], w) <==> lt(w, v);
    assert SegmentContains(lt, r.segments[1], w) <==> lt(v, w);
  }
}
