/** The owned data of a CEP-37 v1 lock file, and the canonical order of its packages
    (crates/rattler_conda_lock/src/model.rs and serialize.rs). */
module LockModel {
  import opened Orders

  datatype Manager = Conda | Pip

  datatype Hashes = Hashes(md5: Option<string>, sha256: Option<string>)

  datatype Package = Package(
    name: string, version: string, manager: Manager, platform: string,
    dependencies: map<string, string>, url: string, hash: Hashes,
    source: Option<string>, build: Option<string>, category: string, optional: bool)

  datatype Channel = Channel(url: string, usedEnvVars: seq<string>)

  datatype GitMetadata = GitMetadata(userName: Option<string>, userEmail: Option<string>, sha: Option<string>)

  datatype Metadata = Metadata(
    contentHash: map<string, string>, channels: seq<Channel>, platforms: seq<string>, sources: seq<string>,
    createdAt: Option<string>, git: Option<GitMetadata>,
    inputs: Option<map<string, Hashes>>, custom: Option<map<string, string>>)

  datatype LockFile = LockFile(metadata: Metadata, package: seq<Package>)

  /** What an artifact installs where; the field order is the canonical package order. */
  datatype Identity = Identity(platform: string, manager: Manager, name: string, category: string)

  function IdentityOf(p: Package): Identity {
    Identity(p.platform, p.manager, p.name, p.category)
  }

  // ---------------------------------------------------------------- Order keys

  /** A field value as a list of strings whose lexicographic order is the field's own:
      absent before present, conda before pip, false before true, map entries in key order. */
  type FieldKey = seq<string>

  predicate FieldLess(a: FieldKey, b: FieldKey) { LexLess(StringLess, a, b) }

  function OptionKey(o: Option<string>): FieldKey { if o.Some? then [o.value] else [] }
  function ManagerKey(m: Manager): FieldKey { if m == Conda then ["0"] else ["1"] }
  function BoolKey(b: bool): FieldKey { if b then ["1"] else ["0"] }

  function Keys<T>(m: map<string, T>): (r: seq<string>)
    ensures Increasing(StringLess, r) && forall k :: k in r <==> k in m
  {
    StringOrder();
    SortedSeq(StringLess, m.Keys)
  }

  function EntriesKey(keys: seq<string>, m: map<string, string>): FieldKey
    requires forall k :: k in keys ==> k in m
  {
    if keys == [] then [] else [keys[0], m[keys[0]]] + EntriesKey(keys[1..], m)
  }

  function IdentityKey(i: Identity): seq<FieldKey> {
    [[i.platform], ManagerKey(i.manager), [i.name], [i.category]]
  }

  function FieldsKey(p: Package): seq<FieldKey> {
    [[p.name], [p.version], ManagerKey(p.manager), [p.platform], EntriesKey(Keys(p.dependencies), p.dependencies),
     [p.url], OptionKey(p.hash.md5), OptionKey(p.hash.sha256), OptionKey(p.source), OptionKey(p.build),
     [p.category], BoolKey(p.optional)]
  }

  function PackageKey(p: Package): seq<FieldKey> { IdentityKey(IdentityOf(p)) + FieldsKey(p) }

  /** By identity, and by all fields in declaration order between equal identities. */
  predicate PackageLess(a: Package, b: Package) { LexLess(FieldLess, PackageKey(a), PackageKey(b)) }

  predicate IdentityLess(a: Identity, b: Identity) { LexLess(FieldLess, IdentityKey(a), IdentityKey(b)) }

  lemma FieldOrder()
    ensures TotalOrder(FieldLess)
  {
    StringOrder();
    forall a, b ensures !FieldLess(a, a) && (FieldLess(a, b) || a == b || FieldLess(b, a)) {
      LexTrichotomy(StringLess, a, b);
    }
    forall a, b, c | FieldLess(a, b) && FieldLess(b, c) ensures FieldLess(a, c) {
      LexTransitive(StringLess, a, b, c);
    }
  }

  lemma {:induction false} EntriesKeyInjective(s: seq<string>, m: map<string, string>, t: seq<string>, n: map<string, string>)
    requires forall k :: k in s ==> k in m
    requires forall k :: k in t ==> k in n
    requires EntriesKey(s, m) == EntriesKey(t, n)
    ensures s == t && forall k :: k in s ==> m[k] == n[k]
  {
    var a, b := EntriesKey(s, m), EntriesKey(t, n);
    if s != [] && t != [] {
      assert a[0] == s[0] && b[0] == t[0] && a[1] == m[s[0]] && b[1] == n[t[0]];
      assert a[2..] == EntriesKey(s[1..], m) && b[2..] == EntriesKey(t[1..], n);
      EntriesKeyInjective(s[1..], m, t[1..], n);
      assert s == [s[0]] + s[1..] && t == [t[0]] + t[1..];
    }
  }

  lemma SameEntries(m: map<string, string>, n: map<string, string>)
    requires EntriesKey(Keys(m), m) == EntriesKey(Keys(n), n)
    ensures m == n
  {
    EntriesKeyInjective(Keys(m), m, Keys(n), n);
    assert forall k :: k in m <==> k in Keys(m);
    assert forall k :: k in n <==> k in Keys(n);
  }

  lemma SameOption(a: Option<string>, b: Option<string>)
    requires OptionKey(a) == OptionKey(b)
    ensures a == b
  {
    assert a.Some? ==> OptionKey(a)[0] == a.value;
    assert b.Some? ==> OptionKey(b)[0] == b.value;
  }

  lemma SameFields(a: Package, b: Package)
    requires FieldsKey(a) == FieldsKey(b)
    ensures a == b
  {
    var s, t := FieldsKey(a), FieldsKey(b);
    assert forall i :: 0 <= i < 12 ==> s[i] == t[i];
    assert [a.name][0] == [b.name][0] && [a.version][0] == [b.version][0] && [a.platform][0] == [b.platform][0];
    assert [a.url][0] == [b.url][0] && [a.category][0] == [b.category][0];
    assert ManagerKey(a.manager)[0] == ManagerKey(b.manager)[0] && BoolKey(a.optional)[0] == BoolKey(b.optional)[0];
    SameEntries(a.dependencies, b.dependencies);
    SameOption(a.hash.md5, b.hash.md5);
    SameOption(a.hash.sha256, b.hash.sha256);
    SameOption(a.source, b.source);
    SameOption(a.build, b.build);
  }

  /** Packages that tie in the canonical order are equal. */
  lemma PackageOrder()
    ensures TotalOrder(PackageLess)
  {
    FieldOrder();
    forall a, b ensures !PackageLess(a, a) && (PackageLess(a, b) || a == b || PackageLess(b, a)) {
      LexTrichotomy(FieldLess, PackageKey(a), PackageKey(b));
      if PackageKey(a) == PackageKey(b) {
        assert FieldsKey(a) == PackageKey(a)[4..] && FieldsKey(b) == PackageKey(b)[4..];
        SameFields(a, b);
      }
    }
    forall a, b, c | PackageLess(a, b) && PackageLess(b, c) ensures PackageLess(a, c) {
      LexTransitive(FieldLess, PackageKey(a), PackageKey(b), PackageKey(c));
    }
  }

  lemma SameIdentity(a: Identity, b: Identity)
    requires IdentityKey(a) == IdentityKey(b)
    ensures a == b
  {
    var s, t := IdentityKey(a), IdentityKey(b);
    assert forall i :: 0 <= i < 4 ==> s[i] == t[i];
    assert [a.platform][0] == [b.platform][0] && [a.name][0] == [b.name][0] && [a.category][0] == [b.category][0];
    assert ManagerKey(a.manager)[0] == ManagerKey(b.manager)[0];
  }

  /** Distinct identities decide the order. */
  lemma IdentityDecides(a: Package, b: Package)
    requires IdentityOf(a) != IdentityOf(b)
    ensures PackageLess(a, b) <==> IdentityLess(IdentityOf(a), IdentityOf(b))
  {
    if IdentityKey(IdentityOf(a)) == IdentityKey(IdentityOf(b)) { SameIdentity(IdentityOf(a), IdentityOf(b)); }
    LexPrefix(FieldLess, IdentityKey(IdentityOf(a)), FieldsKey(a), IdentityKey(IdentityOf(b)), FieldsKey(b));
  }

  /** The order of identities, spelled out: by platform, then conda before pip, then by name,
      then by category. */
  lemma IdentityLessMeans(a: Identity, b: Identity)
    ensures IdentityLess(a, b) <==>
      if a.platform != b.platform then StringLess(a.platform, b.platform)
      else if a.manager != b.manager then a.manager == Conda
      else if a.name != b.name then StringLess(a.name, b.name)
      else StringLess(a.category, b.category)
  {
    var s, t := IdentityKey(a), IdentityKey(b);
    FieldOrder();
    SingleLess(a.platform, b.platform);
    SingleLess(a.name, b.name);
    SingleLess(a.category, b.category);
    CondaFirst(a.manager, b.manager);
    LexHead(FieldLess, s, t);
    LexHead(FieldLess, s[1..], t[1..]);
    LexHead(FieldLess, s[1..][1..], t[1..][1..]);
    LexHead(FieldLess, s[1..][1..][1..], t[1..][1..][1..]);
  }

  /** One step of the lexicographic comparison. */
  lemma LexHead<T(!new)>(lt: (T, T) -> bool, a: seq<T>, b: seq<T>)
    requires TotalOrder(lt) && |a| == |b| > 0
    ensures LexLess(lt, a, b) <==> if a[0] != b[0] then lt(a[0], b[0]) else LexLess(lt, a[1..], b[1..])
  {}

  lemma SingleLess(a: string, b: string)
    ensures FieldLess([a], [b]) <==> StringLess(a, b)
    ensures [a] == [b] <==> a == b
  {
    var x, y: FieldKey := [a], [b];
    StringOrder();
    LexHead(StringLess, x, y);
    LexTrichotomy(StringLess, x, y);
    assert x[0] == a && y[0] == b && x[1..] == [] && y[1..] == [];
    assert !StringLess(a, a);
  }

  lemma CondaFirst(a: Manager, b: Manager)
    ensures FieldLess(ManagerKey(a), ManagerKey(b)) <==> a == Conda && b == Pip
    ensures ManagerKey(a) == ManagerKey(b) <==> a == b
  {
    var zero, one := "0", "1";
    assert zero[0] == '0' && one[0] == '1';
    assert StringLess(zero, one) && !StringLess(one, zero);
    SingleLess(zero, one);
    SingleLess(one, zero);
    SingleLess(zero, zero);
    SingleLess(one, one);
    StringOrder();
  }

  /** Distinct platforms decide the order. */
  lemma PlatformDecides(a: Package, b: Package)
    requires a.platform != b.platform
    ensures PackageLess(a, b) <==> StringLess(a.platform, b.platform)
  {
    var x, y := [a.platform], [b.platform];
    assert x[0] != y[0];
    var s, t := PackageKey(a), PackageKey(b);
    assert s == [x] + s[1..] && t == [y] + t[1..];
    LexPrefix(FieldLess, [x], s[1..], [y], t[1..]);
    assert [x][1..] == [] && [y][1..] == [] && x[1..] == [] && y[1..] == [];
  }

  // ---------------------------------------------------------------- Canonical form

  function LowerChar(c: char): char { if 'A' <= c <= 'Z' then ((c as int) + 32) as char else c }

  predicate HasUpper(s: string) { exists i :: 0 <= i < |s| && 'A' <= s[i] <= 'Z' }

  function Lower(s: string): string { seq(|s|, i requires 0 <= i < |s| => LowerChar(s[i])) }

  /** A string without upper-case ASCII is kept as it is. */
  function Lowercase(s: string): string { if HasUpper(s) then Lower(s) else s }

  /** Each upper-case ASCII letter becomes the lower-case letter at the same place of the
      alphabet, everything else stays; doing it again changes nothing. */
  lemma LowercaseIdempotent(s: string)
    ensures Lowercase(s) == Lower(s) && Lowercase(Lowercase(s)) == Lowercase(s)
    ensures |Lowercase(s)| == |s| && !HasUpper(Lowercase(s))
    ensures forall i :: 0 <= i < |s| ==>
      if 'A' <= s[i] <= 'Z' then Lowercase(s)[i] as int - 'a' as int == s[i] as int - 'A' as int
      else Lowercase(s)[i] == s[i]
  {
    assert !HasUpper(s) ==> Lower(s) == s;
    assert !HasUpper(Lower(s));
  }

  function LowercaseOption(o: Option<string>): Option<string> {
    if o.Some? then Some(Lowercase(o.value)) else None
  }

  function CanonicalHashes(h: Hashes): Hashes { Hashes(LowercaseOption(h.md5), LowercaseOption(h.sha256)) }

  function CanonicalPackage(p: Package): Package { p.(hash := CanonicalHashes(p.hash)) }

  function CanonicalPackages(ps: seq<Package>): seq<Package> {
    seq(|ps|, i requires 0 <= i < |ps| => CanonicalPackage(ps[i]))
  }

  function CanonicalMetadata(m: Metadata): Metadata {
    m.(contentHash := map k | k in m.contentHash :: Lowercase(m.contentHash[k]),
       platforms := Sort(StringLess, m.platforms),
       inputs := if m.inputs.None? then None
                 else Some(map k | k in m.inputs.value :: CanonicalHashes(m.inputs.value[k])))
  }

  /** The lock that reading a written lock gives back: packages and platforms sorted,
      digests in lower case, everything else as it was. */
  function Canonical(l: LockFile): LockFile {
    LockFile(CanonicalMetadata(l.metadata), CanonicalPackages(Sort(PackageLess, l.package)))
  }

  ghost predicate DistinctIdentities(ps: seq<Package>) {
    forall i, j :: 0 <= i < j < |ps| ==> IdentityOf(ps[i]) != IdentityOf(ps[j])
  }

  /** A list that is already sorted stays as it is. */
  lemma SortSorted<T(!new)>(lt: (T, T) -> bool, s: seq<T>)
    requires TotalOrder(lt) && Sorted(lt, s)
    ensures Sort(lt, s) == s
  {
    SortCorrect(lt, s);
    SortedUnique(lt, Sort(lt, s), s);
  }

  /** Distinct identities survive a permutation. */
  lemma DistinctPermuted(a: seq<Package>, b: seq<Package>)
    requires multiset(a) == multiset(b) && DistinctIdentities(a)
    ensures DistinctIdentities(b)
  {
    forall i, j | 0 <= i < j < |b| ensures IdentityOf(b[i]) != IdentityOf(b[j]) {
      assert b[i] in multiset(a) && b[j] in multiset(a);
      var k :| 0 <= k < |a| && a[k] == b[i];
      var l :| 0 <= l < |a| && a[l] == b[j];
      if IdentityOf(b[i]) == IdentityOf(b[j]) {
        assert k == l;
        TwiceIn(b, i, j);
        OnceIn(a, k);
      }
    }
  }

  lemma TwiceIn<T>(s: seq<T>, i: nat, j: nat)
    requires i < j < |s| && s[i] == s[j]
    ensures multiset(s)[s[i]] >= 2
  {
    assert s == s[..j] + [s[j]] + s[j + 1..];
    assert s[i] in s[..j];
  }

  lemma {:induction false} OnceIn(s: seq<Package>, k: nat)
    requires DistinctIdentities(s) && k < |s|
    ensures multiset(s)[s[k]] == 1
  {
    assert s == s[..k] + [s[k]] + s[k + 1..];
    assert s[k] !in s[..k] && s[k] !in s[k + 1..];
  }

  /** Lower-casing digests does not disturb the order of packages of distinct identity. */
  lemma CanonicalStaysSorted(ps: seq<Package>)
    requires Sorted(PackageLess, ps) && DistinctIdentities(ps)
    ensures Sorted(PackageLess, CanonicalPackages(ps)) && DistinctIdentities(CanonicalPackages(ps))
  {
    var cs := CanonicalPackages(ps);
    forall i, j | 0 <= i < j < |cs| ensures !PackageLess(cs[j], cs[i]) {
      IdentityDecides(ps[j], ps[i]);
      IdentityDecides(cs[j], cs[i]);
    }
  }

  lemma MetadataIdempotent(m: Metadata)
    ensures CanonicalMetadata(CanonicalMetadata(m)) == CanonicalMetadata(m)
  {
    var c := CanonicalMetadata(m);
    StringOrder();
    SortCorrect(StringLess, m.platforms);
    SortSorted(StringLess, c.platforms);
    forall k | k in m.contentHash { LowercaseIdempotent(m.contentHash[k]); }
    assert CanonicalMetadata(c).contentHash == c.contentHash;
    if m.inputs.Some? {
      forall k | k in m.inputs.value ensures CanonicalHashes(c.inputs.value[k]) == c.inputs.value[k] {
        HashesIdempotent(m.inputs.value[k]);
      }
      assert CanonicalMetadata(c).inputs.value == c.inputs.value;
    }
  }

  lemma HashesIdempotent(h: Hashes)
    ensures CanonicalHashes(CanonicalHashes(h)) == CanonicalHashes(h)
  {
    if h.md5.Some? { LowercaseIdempotent(h.md5.value); }
    if h.sha256.Some? { LowercaseIdempotent(h.sha256.value); }
  }

  lemma PackagesIdempotent(ps: seq<Package>)
    ensures CanonicalPackages(CanonicalPackages(ps)) == CanonicalPackages(ps)
  {
    forall i | 0 <= i < |ps| { HashesIdempotent(ps[i].hash); }
  }

  /** Canonicalising twice is canonicalising once. */
  lemma CanonicalIdempotent(l: LockFile)
    requires DistinctIdentities(l.package)
    ensures Canonical(Canonical(l)) == Canonical(l)
  {
    var ps := Sort(PackageLess, l.package);
    PackageOrder();
    SortCorrect(PackageLess, l.package);
    DistinctPermuted(l.package, ps);
    CanonicalStaysSorted(ps);
    SortSorted(PackageLess, CanonicalPackages(ps));
    PackagesIdempotent(ps);
    MetadataIdempotent(l.metadata);
  }

  /** The same digest, or absence of one, in lower case. */
  ghost predicate LowercaseDigest(o: Option<string>, c: Option<string>) {
    (o.None? && c.None?) || (o.Some? && c.Some? && c.value == Lower(o.value))
  }

  ghost predicate LowercaseHashes(h: Hashes, c: Hashes) {
    LowercaseDigest(h.md5, c.md5) && LowercaseDigest(h.sha256, c.sha256)
  }

  /** Canonical metadata has its platforms sorted and its digests lowered, and is otherwise as it was:
      also in the priority of channels and the order of sources. */
  lemma CanonicalMetadataMeans(m: Metadata)
    ensures
      var c := CanonicalMetadata(m);
      && c.channels == m.channels && c.sources == m.sources && c.createdAt == m.createdAt
      && c.git == m.git && c.custom == m.custom
      && multiset(c.platforms) == multiset(m.platforms) && Sorted(StringLess, c.platforms)
      && c.contentHash.Keys == m.contentHash.Keys
      && (forall k :: k in m.contentHash ==> c.contentHash[k] == Lower(m.contentHash[k]))
      && (c.inputs.Some? <==> m.inputs.Some?)
      && (m.inputs.Some? ==>
            && c.inputs.value.Keys == m.inputs.value.Keys
            && forall k :: k in m.inputs.value ==> LowercaseHashes(m.inputs.value[k], c.inputs.value[k]))
  {
    StringOrder();
    SortCorrect(StringLess, m.platforms);
    forall k | k in m.contentHash { LowercaseIdempotent(m.contentHash[k]); }
    if m.inputs.Some? {
      forall k | k in m.inputs.value { HashesLowered(m.inputs.value[k]); }
    }
  }

  /** The same packages in the same order, their digests lowered. */
  ghost predicate PackagesLowered(ps: seq<Package>, cs: seq<Package>) {
    && |ps| == |cs|
    && forall i :: 0 <= i < |ps| ==> cs[i] == ps[i].(hash := cs[i].hash) && LowercaseHashes(ps[i].hash, cs[i].hash)
  }

  lemma CanonicalPackagesMean(ps: seq<Package>)
    ensures PackagesLowered(ps, CanonicalPackages(ps))
  {
    forall i | 0 <= i < |ps| { HashesLowered(ps[i].hash); }
  }

  /** The canonical form has canonical metadata, and the packages of the lock in canonical order, with
      their digests lowered. */
  lemma CanonicalMeans(l: LockFile)
    ensures Canonical(l).metadata == CanonicalMetadata(l.metadata)
    ensures exists ps: seq<Package> ::
      PackagesLowered(ps, Canonical(l).package) && multiset(ps) == multiset(l.package) && Sorted(PackageLess, ps)
  {
    PackageOrder();
    SortCorrect(PackageLess, l.package);
    CanonicalPackagesMean(Sort(PackageLess, l.package));
  }

  lemma HashesLowered(h: Hashes)
    ensures LowercaseHashes(h, CanonicalHashes(h))
  {
    if h.md5.Some? { LowercaseIdempotent(h.md5.value); }
    if h.sha256.Some? { LowercaseIdempotent(h.sha256.value); }
  }
}
