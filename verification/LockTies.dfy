/** How packages of equal identity are ordered, which only happens in invalid locks
    (crates/rattler_conda_lock/src/model.rs). */
module LockTies {
  import opened Orders
  import opened LockModel

  /** Absent comes first. */
  predicate OptionLess(a: Option<string>, b: Option<string>) {
    b.Some? && (a.Some? ==> StringLess(a.value, b.value))
  }

  /** The least key at which two maps differ. */
  ghost predicate DifferFirst(m: map<string, string>, n: map<string, string>, k: string) {
    && (k in m || k in n) && (k in m && k in n ==> m[k] != n[k])
    && forall j :: StringLess(j, k) ==> (j in m <==> j in n) && (j in m && j in n ==> m[j] == n[j])
  }

  /** Where they differ first: two values compare; a key that one map lacks comes before any later
      key of that map, and after its end. */
  ghost predicate MapLess(m: map<string, string>, n: map<string, string>) {
    exists k :: DifferFirst(m, n, k) &&
      if k in m && k in n then StringLess(m[k], n[k])
      else if k in m then exists j :: j in n && StringLess(k, j)
      else forall j :: j in m ==> !StringLess(k, j)
  }

  lemma OneFirstDifference(m: map<string, string>, n: map<string, string>, j: string, k: string)
    requires DifferFirst(m, n, j) && DifferFirst(m, n, k)
    ensures j == k
  {
    StringOrder();
  }

  lemma LeastKey<T>(m: map<string, T>)
    requires m != map[]
    ensures Keys(m) != [] && Keys(m)[0] in m && forall j :: j in m && j != Keys(m)[0] ==> StringLess(Keys(m)[0], j)
  {
    var keys := Keys(m);
    var k :| k in m;
    assert k in keys && keys[0] in keys;
    forall j | j in m && j != keys[0] ensures StringLess(keys[0], j) {
      assert j in keys;
      var i :| 0 <= i < |keys| && keys[i] == j;
    }
  }

  /** Without its least key a map has the other keys, in the same order. */
  lemma OtherKeys(m: map<string, string>)
    requires m != map[] && Keys(m) != []
    ensures Keys(m - {Keys(m)[0]}) == Keys(m)[1..]
    ensures EntriesKey(Keys(m), m) ==
      [Keys(m)[0], m[Keys(m)[0]]] + EntriesKey(Keys(m - {Keys(m)[0]}), m - {Keys(m)[0]})
  {
    var keys := Keys(m);
    var rest, k := keys[1..], keys[0];
    StringOrder();
    assert keys == [k] + rest;
    assert k !in rest;
    forall j ensures j in rest <==> j in Keys(m - {k}) { assert j in keys <==> j == k || j in rest; }
    IncreasingUnique(StringLess, rest, Keys(m - {k}));
    EntriesAlike(rest, m, m - {k});
  }

  lemma {:induction false} EntriesAlike(s: seq<string>, m: map<string, string>, n: map<string, string>)
    requires forall k :: k in s ==> k in m && k in n && m[k] == n[k]
    ensures EntriesKey(s, m) == EntriesKey(s, n)
  {
    if s != [] { EntriesAlike(s[1..], m, n); }
  }

  /** The order of maps, entry by entry, is the one by their first difference. */
  lemma {:induction false} EntriesLessIff(m: map<string, string>, n: map<string, string>)
    ensures FieldLess(EntriesKey(Keys(m), m), EntriesKey(Keys(n), n)) <==> MapLess(m, n)
    decreases |m|
  {
    if m == map[] || n == map[] {
      EmptyLess(m, n);
    } else {
      LeastKey(m);
      LeastKey(n);
      var j, k := Keys(m)[0], Keys(n)[0];
      if j == k && m[j] == n[k] {
        EntriesLessIff(m - {k}, n - {k});
        SameHeadLess(m, n, k);
        DropHead(m, n);
      } else {
        HeadsLess(m, n);
        HeadsDiffer(m, n, j, k);
      }
    }
  }

  lemma DropHead(m: map<string, string>, n: map<string, string>)
    requires m != map[] && n != map[] && Keys(m) != [] && Keys(n) != []
    requires Keys(m)[0] == Keys(n)[0] && m[Keys(m)[0]] == n[Keys(n)[0]]
    ensures
      var p, q := m - {Keys(m)[0]}, n - {Keys(m)[0]};
      FieldLess(EntriesKey(Keys(m), m), EntriesKey(Keys(n), n)) <==> FieldLess(EntriesKey(Keys(p), p), EntriesKey(Keys(q), q))
  {
    OtherKeys(m);
    OtherKeys(n);
    TwoEqual(EntriesKey(Keys(m), m), EntriesKey(Keys(n), n));
  }

  lemma HeadsLess(m: map<string, string>, n: map<string, string>)
    requires m != map[] && n != map[] && Keys(m) != [] && Keys(n) != []
    requires Keys(m)[0] != Keys(n)[0] || m[Keys(m)[0]] != n[Keys(n)[0]]
    ensures FieldLess(EntriesKey(Keys(m), m), EntriesKey(Keys(n), n)) <==>
      if Keys(m)[0] == Keys(n)[0] then StringLess(m[Keys(m)[0]], n[Keys(n)[0]]) else StringLess(Keys(m)[0], Keys(n)[0])
  {
    TwoDiffer(EntriesKey(Keys(m), m), EntriesKey(Keys(n), n));
  }

  lemma EmptyLess(m: map<string, string>, n: map<string, string>)
    requires m == map[] || n == map[]
    ensures FieldLess(EntriesKey(Keys(m), m), EntriesKey(Keys(n), n)) <==> n != map[]
    ensures MapLess(m, n) <==> n != map[]
  {
    if n != map[] {
      LeastKey(n);
      assert Keys(m) == [];
      var k := Keys(n)[0];
      forall j | StringLess(j, k) ensures j !in n { StringOrder(); }
      assert DifferFirst(m, n, k);
    } else {
      assert Keys(n) == [];
    }
  }

  /** The least keys differ, or their values do: that is the first difference. */
  lemma HeadsDiffer(m: map<string, string>, n: map<string, string>, j: string, k: string)
    requires j in m && (forall i :: i in m && i != j ==> StringLess(j, i))
    requires k in n && (forall i :: i in n && i != k ==> StringLess(k, i))
    requires j != k || m[j] != n[k]
    ensures MapLess(m, n) <==> if j == k then StringLess(m[j], n[k]) else StringLess(j, k)
  {
    StringOrder();
    var first := if StringLess(k, j) then k else j;
    assert DifferFirst(m, n, first);
    forall i | DifferFirst(m, n, i) ensures i == first { OneFirstDifference(m, n, i, first); }
  }

  /** Dropping an entry that both maps start with. */
  lemma SameHeadLess(m: map<string, string>, n: map<string, string>, k: string)
    requires k in m && k in n && m[k] == n[k]
    requires forall i :: i in m && i != k ==> StringLess(k, i)
    requires forall i :: i in n && i != k ==> StringLess(k, i)
    ensures MapLess(m, n) <==> MapLess(m - {k}, n - {k})
  {
    var p, q := m - {k}, n - {k};
    StringOrder();
    forall i ensures DifferFirst(m, n, i) <==> DifferFirst(p, q, i) {
      assert forall j :: j != k ==> (j in m <==> j in p) && (j in n <==> j in q);
    }
    forall i | DifferFirst(m, n, i)
      ensures (exists j :: j in n && StringLess(i, j)) <==> (exists j :: j in q && StringLess(i, j))
      ensures (forall j :: j in m ==> !StringLess(i, j)) <==> (forall j :: j in p ==> !StringLess(i, j))
    {
      assert i != k && StringLess(k, i) && !StringLess(i, k);
    }
  }

  lemma TwoEqual(a: FieldKey, b: FieldKey)
    requires |a| >= 2 && |b| >= 2 && a[0] == b[0] && a[1] == b[1]
    ensures FieldLess(a, b) <==> FieldLess(a[2..], b[2..])
  {
    StringOrder();
    var p, q := a[1..], b[1..];
    assert FieldLess(a, b) <==> FieldLess(p, q);
    assert p[1..] == a[2..] && q[1..] == b[2..] && p[0] == a[1] && q[0] == b[1];
  }

  lemma TwoDiffer(a: FieldKey, b: FieldKey)
    requires |a| >= 2 && |b| >= 2 && (a[0] != b[0] || a[1] != b[1])
    ensures FieldLess(a, b) <==> if a[0] == b[0] then StringLess(a[1], b[1]) else StringLess(a[0], b[0])
  {
    StringOrder();
    var p, q := a[1..], b[1..];
    assert FieldLess(a, b) <==> StringLess(a[0], b[0]) || (a[0] == b[0] && FieldLess(p, q));
    assert p[0] == a[1] && q[0] == b[1];
  }

  lemma OptionLessIff(a: Option<string>, b: Option<string>)
    ensures FieldLess(OptionKey(a), OptionKey(b)) <==> OptionLess(a, b)
    ensures OptionKey(a) == OptionKey(b) <==> a == b
  {
    if a.Some? && b.Some? { SingleLess(a.value, b.value); }
    if OptionKey(a) == OptionKey(b) { SameOption(a, b); }
  }

  lemma FalseFirst(a: bool, b: bool)
    ensures FieldLess(BoolKey(a), BoolKey(b)) <==> !a && b
    ensures BoolKey(a) == BoolKey(b) <==> a == b
  {
    CondaFirst(if a then Pip else Conda, if b then Pip else Conda);
  }

  /** Two keys that agree up to a place compare from there. */
  lemma {:induction false} LexFrom<T(!new)>(lt: (T, T) -> bool, a: seq<T>, b: seq<T>, n: nat)
    requires TotalOrder(lt) && |a| == |b| && n <= |a| && a[..n] == b[..n]
    ensures LexLess(lt, a, b) <==> LexLess(lt, a[n..], b[n..])
  {
    if n > 0 {
      assert a[0] == a[..n][0] && b[0] == b[..n][0];
      assert a[1..][..n - 1] == a[..n][1..] && b[1..][..n - 1] == b[..n][1..];
      LexFrom(lt, a[1..], b[1..], n - 1);
      assert a[1..][n - 1..] == a[n..] && b[1..][n - 1..] == b[n..];
    } else {
      assert a[0..] == a && b[0..] == b;
    }
  }

  /** The first place at which two keys differ decides. */
  lemma FirstDifferenceDecides<T(!new)>(lt: (T, T) -> bool, a: seq<T>, b: seq<T>, n: nat)
    requires TotalOrder(lt) && |a| == |b| && n < |a| && a[..n] == b[..n] && a[n] != b[n]
    ensures LexLess(lt, a, b) <==> lt(a[n], b[n])
  {
    LexFrom(lt, a, b, n);
    assert a[n..][0] == a[n] && b[n..][0] == b[n];
  }

  /** Between packages of equal identity the fields decide in the order of their declaration: version,
      dependencies, URL, checksums, source, build, and the optional flag last. */
  lemma {:induction false} TiesBrokenBy(a: Package, b: Package)
    requires IdentityOf(a) == IdentityOf(b)
    ensures PackageLess(a, b) <==>
      if a.version != b.version then StringLess(a.version, b.version)
      else if a.dependencies != b.dependencies then MapLess(a.dependencies, b.dependencies)
      else if a.url != b.url then StringLess(a.url, b.url)
      else if a.hash.md5 != b.hash.md5 then OptionLess(a.hash.md5, b.hash.md5)
      else if a.hash.sha256 != b.hash.sha256 then OptionLess(a.hash.sha256, b.hash.sha256)
      else if a.source != b.source then OptionLess(a.source, b.source)
      else if a.build != b.build then OptionLess(a.build, b.build)
      else !a.optional && b.optional
  {
    IdentityKeysFirst(a, b);
    KeysByField(a, b, FieldsKey(a), FieldsKey(b));
    FirstFieldDecides(FieldsKey(a), FieldsKey(b));
  }

  /** Of keys that agree in the places 0, 2, 3 and 10. */
  lemma FirstFieldDecides(s: seq<FieldKey>, t: seq<FieldKey>)
    requires |s| == |t| == 12 && s[0] == t[0] && s[2] == t[2] && s[3] == t[3] && s[10] == t[10]
    ensures LexLess(FieldLess, s, t) <==>
      if s[1] != t[1] then FieldLess(s[1], t[1])
      else if s[4] != t[4] then FieldLess(s[4], t[4])
      else if s[5] != t[5] then FieldLess(s[5], t[5])
      else if s[6] != t[6] then FieldLess(s[6], t[6])
      else if s[7] != t[7] then FieldLess(s[7], t[7])
      else if s[8] != t[8] then FieldLess(s[8], t[8])
      else if s[9] != t[9] then FieldLess(s[9], t[9])
      else FieldLess(s[11], t[11])
  {
    FieldOrder();
    var n := if s[1] != t[1] then 1 else if s[4] != t[4] then 4 else if s[5] != t[5] then 5 else if s[6] != t[6] then 6
             else if s[7] != t[7] then 7 else if s[8] != t[8] then 8 else if s[9] != t[9] then 9 else 11;
    assert forall i :: 0 <= i < n ==> s[i] == t[i];
    assert s[..n] == t[..n];
    if s[n] != t[n] {
      FirstDifferenceDecides(FieldLess, s, t, n);
    } else {
      assert s == t;
      LexTrichotomy(FieldLess, s, t);
    }
  }

  lemma IdentityKeysFirst(a: Package, b: Package)
    requires IdentityOf(a) == IdentityOf(b)
    ensures PackageLess(a, b) <==> LexLess(FieldLess, FieldsKey(a), FieldsKey(b))
  {
    FieldOrder();
    var s, t := PackageKey(a), PackageKey(b);
    assert s[..4] == IdentityKey(IdentityOf(a)) && t[..4] == IdentityKey(IdentityOf(b));
    assert s[4..] == FieldsKey(a) && t[4..] == FieldsKey(b);
    LexFrom(FieldLess, s, t, 4);
  }

  /** Field by field, keys are equal when the values are, and ordered as the values are. */
  lemma KeysByField(a: Package, b: Package, s: seq<FieldKey>, t: seq<FieldKey>)
    requires IdentityOf(a) == IdentityOf(b) && s == FieldsKey(a) && t == FieldsKey(b)
    ensures |s| == 12 && |t| == 12
    ensures s[0] == t[0] && s[2] == t[2] && s[3] == t[3] && s[10] == t[10]
    ensures (s[1] == t[1] <==> a.version == b.version) && (FieldLess(s[1], t[1]) <==> StringLess(a.version, b.version))
    ensures s[4] == t[4] <==> a.dependencies == b.dependencies
    ensures FieldLess(s[4], t[4]) <==> MapLess(a.dependencies, b.dependencies)
    ensures (s[5] == t[5] <==> a.url == b.url) && (FieldLess(s[5], t[5]) <==> StringLess(a.url, b.url))
    ensures s[6] == t[6] <==> a.hash.md5 == b.hash.md5
    ensures FieldLess(s[6], t[6]) <==> OptionLess(a.hash.md5, b.hash.md5)
    ensures s[7] == t[7] <==> a.hash.sha256 == b.hash.sha256
    ensures FieldLess(s[7], t[7]) <==> OptionLess(a.hash.sha256, b.hash.sha256)
    ensures (s[8] == t[8] <==> a.source == b.source) && (FieldLess(s[8], t[8]) <==> OptionLess(a.source, b.source))
    ensures (s[9] == t[9] <==> a.build == b.build) && (FieldLess(s[9], t[9]) <==> OptionLess(a.build, b.build))
    ensures (s[11] == t[11] <==> a.optional == b.optional) && (FieldLess(s[11], t[11]) <==> !a.optional && b.optional)
  {
    SingleLess(a.version, b.version);
    SingleLess(a.url, b.url);
    EntriesLessIff(a.dependencies, b.dependencies);
    if s[4] == t[4] { SameEntries(a.dependencies, b.dependencies); }
    OptionLessIff(a.hash.md5, b.hash.md5);
    OptionLessIff(a.hash.sha256, b.hash.sha256);
    OptionLessIff(a.source, b.source);
    OptionLessIff(a.build, b.build);
    FalseFirst(a.optional, b.optional);
  }
}
