/** Strict total orders, the lexicographic order on sequences, and sorting. */
module Orders {

  datatype Option<+T> = None | Some(value: T)

  /** The first error ends a computation written with `:-`. */
  datatype Result<+T, +E> = Success(value: T) | Failure(error: E) {
    predicate IsFailure() { Failure? }
    function PropagateFailure<U>(): Result<U, E>
      requires Failure?
    {
      Failure(error)
    }
    function Extract(): T
      requires Success?
    {
      value
    }
  }

  ghost predicate TotalOrder<T(!new)>(lt: (T, T) -> bool) {
    && (forall a :: !lt(a, a))
    && (forall a, b :: lt(a, b) || a == b || lt(b, a))
    && (forall a, b, c :: lt(a, b) && lt(b, c) ==> lt(a, c))
  }

  /** Lexicographic order; a proper prefix comes first. */
  predicate LexLess<T(==)>(lt: (T, T) -> bool, a: seq<T>, b: seq<T>) {
    b != [] && (a == [] || lt(a[0], b[0]) || (a[0] == b[0] && LexLess(lt, a[1..], b[1..])))
  }

  predicate CharLess(a: char, b: char) { a < b }

  predicate StringLess(a: string, b: string) { LexLess(CharLess, a, b) }

  lemma {:induction false} LexTrichotomy<T(!new)>(lt: (T, T) -> bool, a: seq<T>, b: seq<T>)
    requires TotalOrder(lt)
    ensures !LexLess(lt, a, a)
    ensures LexLess(lt, a, b) || a == b || LexLess(lt, b, a)
  {
    if a != [] { LexTrichotomy(lt, a[1..], if b == [] then b else b[1..]); }
    if a != [] && b != [] && a[0] == b[0] {
      assert a == [a[0]] + a[1..] && b == [b[0]] + b[1..];
    }
  }

  lemma {:induction false} LexTransitive<T(!new)>(lt: (T, T) -> bool, a: seq<T>, b: seq<T>, c: seq<T>)
    requires TotalOrder(lt) && LexLess(lt, a, b) && LexLess(lt, b, c)
    ensures LexLess(lt, a, c)
  {
    if a != [] && a[0] == b[0] && b[0] == c[0] { LexTransitive(lt, a[1..], b[1..], c[1..]); }
  }

  lemma StringOrder()
    ensures TotalOrder(StringLess)
  {
    forall a, b ensures !StringLess(a, a) && (StringLess(a, b) || a == b || StringLess(b, a)) {
      LexTrichotomy(CharLess, a, b);
    }
    forall a, b, c | StringLess(a, b) && StringLess(b, c) ensures StringLess(a, c) {
      LexTransitive(CharLess, a, b, c);
    }
  }

  /** Strictly increasing, hence without repetition. */
  ghost predicate Increasing<T>(lt: (T, T) -> bool, s: seq<T>) {
    forall i, j :: 0 <= i < j < |s| ==> lt(s[i], s[j])
  }

  ghost predicate Least<T>(lt: (T, T) -> bool, s: set<T>, m: T) {
    m in s && forall x :: x in s ==> x == m || lt(m, x)
  }

  lemma {:induction false} LeastExists<T(!new)>(lt: (T, T) -> bool, s: set<T>) returns (m: T)
    requires TotalOrder(lt) && s != {}
    ensures Least(lt, s, m)
    decreases |s|
  {
    var y :| y in s;
    m := y;
    var rest := s - {y};
    assert s == rest + {y};
    if rest != {} {
      var k := LeastExists(lt, rest);
      if lt(k, y) {
        m := k;
      } else {
        forall x | x in rest ensures lt(y, x) {
          assert lt(y, k) && (x == k || lt(k, x));
        }
      }
    }
  }

  /** The elements of a set, once each and in increasing order. */
  function SortedSeq<T(==, !new)>(lt: (T, T) -> bool, s: set<T>): (r: seq<T>)
    requires TotalOrder(lt)
    ensures Increasing(lt, r)
    ensures forall x :: x in r <==> x in s
  {
    if s == {} then []
    else
      assert exists m :: Least(lt, s, m) by { var m := LeastExists(lt, s); }
      var m :| m in s && forall x :: x in s ==> x == m || lt(m, x);
      [m] + SortedSeq(lt, s - {m})
  }

  lemma HasElement<T>(s: seq<T>)
    requires s != []
    ensures exists x :: x in s
  {
    assert s[0] in s;
  }

  /** A strictly increasing list is determined by its elements. */
  lemma {:induction false} IncreasingUnique<T(!new)>(lt: (T, T) -> bool, a: seq<T>, b: seq<T>)
    requires TotalOrder(lt) && Increasing(lt, a) && Increasing(lt, b)
    requires forall x :: x in a <==> x in b
    ensures a == b
  {
    if a != [] && b != [] {
      assert a[0] == b[0] by { assert a[0] in b && b[0] in a; }
      forall x ensures x in a[1..] <==> x in b[1..] {
        assert a == [a[0]] + a[1..] && b == [b[0]] + b[1..];
        assert x in a <==> x == a[0] || x in a[1..];
        assert x in b <==> x == b[0] || x in b[1..];
        assert a[0] !in a[1..] && b[0] !in b[1..];
      }
      IncreasingUnique(lt, a[1..], b[1..]);
    } else {
      if a != [] { HasElement(a); }
      if b != [] { HasElement(b); }
    }
  }

  /** Drain an ordered set: its elements once each, in increasing order. */
  method SortedElements<T(==, !new)>(lt: (T, T) -> bool, s: set<T>) returns (r: seq<T>)
    requires TotalOrder(lt)
    ensures r == SortedSeq(lt, s)
  {
    r := [];
    var rest := s;
    while rest != {}
      invariant rest <= s
      invariant Increasing(lt, r)
      invariant forall x :: x in r <==> x in s - rest
      invariant forall x, y :: x in r && y in rest ==> lt(x, y)
    {
      ghost var least := LeastExists(lt, rest);
      var m :| m in rest && forall x :: x in rest ==> x == m || lt(m, x);
      r := r + [m];
      rest := rest - {m};
    }
    IncreasingUnique(lt, r, SortedSeq(lt, s));
  }

  // ---------------------------------------------------------------- Sorting

  ghost predicate Sorted<T>(lt: (T, T) -> bool, s: seq<T>) {
    forall i, j :: 0 <= i < j < |s| ==> !lt(s[j], s[i])
  }

  function InsertSorted<T>(lt: (T, T) -> bool, x: T, s: seq<T>): seq<T> {
    if s == [] || !lt(s[0], x) then [x] + s else [s[0]] + InsertSorted(lt, x, s[1..])
  }

  /** The stable sorted arrangement of a list. */
  function Sort<T>(lt: (T, T) -> bool, s: seq<T>): seq<T> {
    if s == [] then [] else InsertSorted(lt, s[0], Sort(lt, s[1..]))
  }

  lemma {:induction false} InsertSortedCorrect<T(!new)>(lt: (T, T) -> bool, x: T, s: seq<T>)
    requires TotalOrder(lt) && Sorted(lt, s)
    ensures Sorted(lt, InsertSorted(lt, x, s))
    ensures multiset(InsertSorted(lt, x, s)) == multiset{x} + multiset(s)
  {
    var r := InsertSorted(lt, x, s);
    if s == [] || !lt(s[0], x) {
      forall j | 0 <= j < |s| ensures !lt(s[j], x) {
        if j > 0 { assert !lt(s[j], s[0]); }
      }
    } else {
      InsertSortedCorrect(lt, x, s[1..]);
      assert s == [s[0]] + s[1..];
      forall j | 1 <= j < |r| ensures !lt(r[j], s[0]) {
        assert r[j] == r[1..][j - 1];
        assert r[j] in multiset(r[1..]);
        assert r[j] == x || r[j] in s[1..];
      }
    }
  }

  lemma {:induction false} SortCorrect<T(!new)>(lt: (T, T) -> bool, s: seq<T>)
    requires TotalOrder(lt)
    ensures Sorted(lt, Sort(lt, s))
    ensures multiset(Sort(lt, s)) == multiset(s)
  {
    if s != [] {
      SortCorrect(lt, s[1..]);
      InsertSortedCorrect(lt, s[0], Sort(lt, s[1..]));
      assert s == [s[0]] + s[1..];
    }
  }

  /** Concatenation is associative. */
  lemma AppendAssociates<T>(a: seq<T>, b: seq<T>, c: seq<T>)
    ensures a + (b + c) == a + b + c
  {
  }

  lemma SortedHeadsAgree<T(!new)>(lt: (T, T) -> bool, a: seq<T>, b: seq<T>)
    requires TotalOrder(lt) && Sorted(lt, a) && Sorted(lt, b) && multiset(a) == multiset(b) && a != []
    ensures b != [] && a[0] == b[0]
  {
    assert a[0] in multiset(b);
    var i :| 0 <= i < |b| && b[i] == a[0];
    assert b[0] in multiset(a);
    var j :| 0 <= j < |a| && a[j] == b[0];
    assert i > 0 ==> !lt(a[0], b[0]);
    assert j > 0 ==> !lt(b[0], a[0]);
  }

  lemma SameTails<T>(a: seq<T>, b: seq<T>)
    requires a != [] && b != [] && a[0] == b[0] && multiset(a) == multiset(b)
    ensures multiset(a[1..]) == multiset(b[1..])
  {
    assert a == [a[0]] + a[1..] && b == [b[0]] + b[1..];
    assert multiset(a[1..]) == multiset(a) - multiset{a[0]};
    assert multiset(b[1..]) == multiset(b) - multiset{b[0]};
  }

  /** A multiset has one sorted arrangement. */
  lemma {:induction false} SortedUnique<T(!new)>(lt: (T, T) -> bool, a: seq<T>, b: seq<T>)
    requires TotalOrder(lt) && Sorted(lt, a) && Sorted(lt, b) && multiset(a) == multiset(b)
    ensures a == b
  {
    if a == [] {
      assert |multiset(b)| == 0;
    } else {
      SortedHeadsAgree(lt, a, b);
      SameTails(a, b);
      SortedUnique(lt, a[1..], b[1..]);
      assert a == [a[0]] + a[1..] && b == [b[0]] + b[1..];
    }
  }

  /** Where sequences differ early, what follows does not matter. */
  lemma {:induction false} LexPrefix<T(!new)>(lt: (T, T) -> bool, a: seq<T>, b: seq<T>, c: seq<T>, d: seq<T>)
    requires |a| == |c| && a != c
    ensures LexLess(lt, a + b, c + d) <==> LexLess(lt, a, c)
  {
    if a[0] == c[0] {
      assert (a + b)[1..] == a[1..] + b && (c + d)[1..] == c[1..] + d;
      assert a == [a[0]] + a[1..] && c == [c[0]] + c[1..];
      LexPrefix(lt, a[1..], b, c[1..], d);
    }
  }
}
