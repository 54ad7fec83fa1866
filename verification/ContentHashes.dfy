/** Package-derived content hashes (crates/rattler_conda_lock/src/serialize.rs). */
module ContentHashes {
  import opened Orders
  import opened LockModel
  import opened LockTree
  import opened LockRoundTrip

  /** How many leading packages have a platform below the given one, or at most it. */
  function PartitionPoint(ps: seq<Package>, platform: string, inclusive: bool): (n: nat)
    ensures n <= |ps|
  {
    if ps == [] then 0
    else if StringLess(ps[0].platform, platform) || (inclusive && ps[0].platform == platform) then
      1 + PartitionPoint(ps[1..], platform, inclusive)
    else 0
  }

  lemma {:induction false} PartitionPointsOrdered(ps: seq<Package>, platform: string)
    ensures PartitionPoint(ps, platform, false) <= PartitionPoint(ps, platform, true)
  {
    if ps != [] { PartitionPointsOrdered(ps[1..], platform); }
  }

  /** The packages of one platform, as the hash sees them. */
  function HashedPackages(l: LockFile, platform: string): seq<Package> {
    var ps := Sort(PackageLess, l.package);
    PartitionPointsOrdered(ps, platform);
    ps[PartitionPoint(ps, platform, false)..PartitionPoint(ps, platform, true)]
  }

  /** What is hashed, as a tree; its rendering and SHA256 are a parameter. */
  function Preimage(l: LockFile, platform: string): Raw {
    PackageListTree(HashedPackages(l, platform))
  }

  method HashOf(l: LockFile, platform: string, digest: Raw -> string) returns (hash: string)
    ensures hash == digest(Preimage(l, platform))
  {
    var ps := Sort(PackageLess, l.package);
    PartitionPointsOrdered(ps, platform);
    var start, end := PartitionPoint(ps, platform, false), PartitionPoint(ps, platform, true);
    hash := digest(PackageListTree(ps[start..end]));
  }

  method ComputeContentHashes(l: LockFile, digest: Raw -> string) returns (hashes: map<string, string>)
    ensures hashes == map p | p in l.metadata.platforms :: digest(Preimage(l, p))
  {
    hashes := map[];
    var platforms := l.metadata.platforms;
    for i := 0 to |platforms|
      invariant forall p :: p in hashes <==> p in platforms[..i]
      invariant forall p :: p in hashes ==> hashes[p] == digest(Preimage(l, p))
    {
      var hash := HashOf(l, platforms[i], digest);
      assert platforms[..i + 1] == platforms[..i] + [platforms[i]];
      hashes := hashes[platforms[i] := hash];
    }
    assert platforms[..|platforms|] == platforms;
  }

  // ---------------------------------------------------------------- The slice

  function OfPlatform(ps: seq<Package>, platform: string): seq<Package> {
    if ps == [] then []
    else (if ps[0].platform == platform then [ps[0]] else []) + OfPlatform(ps[1..], platform)
  }

  lemma {:induction false} OfPlatformCounts(ps: seq<Package>, platform: string, p: Package)
    ensures multiset(OfPlatform(ps, platform))[p] == if p.platform == platform then multiset(ps)[p] else 0
  {
    if ps != [] {
      OfPlatformCounts(ps[1..], platform, p);
      assert ps == [ps[0]] + ps[1..];
      assert OfPlatform(ps, platform) ==
        (if ps[0].platform == platform then [ps[0]] else []) + OfPlatform(ps[1..], platform);
    }
  }

  lemma SamePlatformPackages(a: seq<Package>, b: seq<Package>, platform: string)
    requires multiset(a) == multiset(b)
    ensures multiset(OfPlatform(a, platform)) == multiset(OfPlatform(b, platform))
  {
    forall p ensures multiset(OfPlatform(a, platform))[p] == multiset(OfPlatform(b, platform))[p] {
      OfPlatformCounts(a, platform, p);
      OfPlatformCounts(b, platform, p);
    }
  }

  lemma {:induction false} OfPlatformSorted(ps: seq<Package>, platform: string)
    requires Sorted(PackageLess, ps)
    ensures Sorted(PackageLess, OfPlatform(ps, platform))
    ensures forall p :: p in OfPlatform(ps, platform) ==> p in ps
  {
    if ps != [] {
      assert ps == [ps[0]] + ps[1..];
      assert Sorted(PackageLess, ps[1..]);
      OfPlatformSorted(ps[1..], platform);
      var rest := OfPlatform(ps[1..], platform);
      forall j | 0 <= j < |rest| ensures !PackageLess(rest[j], ps[0]) {
        assert rest[j] in rest && rest[j] in ps[1..];
        var k :| 0 <= k < |ps[1..]| && ps[1..][k] == rest[j];
        assert ps[k + 1] == rest[j];
      }
    }
  }

  /** Later packages never have an earlier platform. */
  ghost predicate PlatformsAscend(ps: seq<Package>) {
    forall i, j :: 0 <= i < j < |ps| ==> !StringLess(ps[j].platform, ps[i].platform)
  }

  lemma SortedPlatformsAscend(ps: seq<Package>)
    requires Sorted(PackageLess, ps)
    ensures PlatformsAscend(ps)
  {
    forall i, j | 0 <= i < j < |ps| ensures !StringLess(ps[j].platform, ps[i].platform) {
      StringTrichotomy(ps[j].platform, ps[i].platform);
      if ps[i].platform != ps[j].platform { PlatformDecides(ps[j], ps[i]); }
    }
  }

  /** Exactly one of three holds of two strings. */
  lemma StringTrichotomy(a: string, b: string)
    ensures StringLess(a, b) ==> a != b && !StringLess(b, a)
    ensures a == b || StringLess(a, b) || StringLess(b, a)
  {
    StringOrder();
  }

  /** The two partition points cut out exactly the packages of the platform. */
  lemma {:induction false} SliceIsPlatform(ps: seq<Package>, platform: string)
    requires PlatformsAscend(ps)
    ensures PartitionPoint(ps, platform, false) <= PartitionPoint(ps, platform, true)
    ensures ps[PartitionPoint(ps, platform, false)..PartitionPoint(ps, platform, true)] == OfPlatform(ps, platform)
  {
    PartitionPointsOrdered(ps, platform);
    if ps != [] {
      var rest := ps[1..];
      SliceIsPlatform(rest, platform);
      StringTrichotomy(ps[0].platform, platform);
      var lo, hi := PartitionPoint(rest, platform, false), PartitionPoint(rest, platform, true);
      if ps[0].platform == platform {
        NoneBelow(ps, platform);
        SliceFromFirst(ps, hi);
      } else if StringLess(platform, ps[0].platform) {
        NoneOfPlatform(ps, platform);
      } else {
        SliceLater(ps, lo, hi);
      }
    }
  }

  lemma SliceLater(ps: seq<Package>, lo: nat, hi: nat)
    requires lo <= hi < |ps|
    ensures ps[lo + 1..hi + 1] == ps[1..][lo..hi]
  {
  }

  lemma SliceFromFirst(ps: seq<Package>, hi: nat)
    requires hi < |ps|
    ensures ps[0..hi + 1] == [ps[0]] + ps[1..][0..hi]
  {
  }

  lemma NoneBelow(ps: seq<Package>, platform: string)
    requires PlatformsAscend(ps) && ps != [] && ps[0].platform == platform
    ensures PartitionPoint(ps[1..], platform, false) == 0
    ensures PartitionPoint(ps, platform, false) == 0
  {
    StringTrichotomy(platform, platform);
    if |ps| > 1 { StringTrichotomy(ps[1].platform, platform); }
  }

  lemma {:induction false} NoneOfPlatform(ps: seq<Package>, platform: string)
    requires PlatformsAscend(ps) && (ps != [] ==> StringLess(platform, ps[0].platform))
    ensures OfPlatform(ps, platform) == []
  {
    if ps != [] {
      StringTrichotomy(platform, ps[0].platform);
      if |ps| > 1 { LaterStaysAbove(platform, ps[0].platform, ps[1].platform); }
      NoneOfPlatform(ps[1..], platform);
    }
  }

  lemma LaterStaysAbove(a: string, b: string, c: string)
    requires StringLess(a, b) && !StringLess(c, b)
    ensures StringLess(a, c)
  {
    StringOrder();
  }

  /** What is hashed for a platform is its own packages in canonical order. */
  lemma HashedAreOwnSorted(l: LockFile, platform: string)
    ensures HashedPackages(l, platform) == Sort(PackageLess, OfPlatform(l.package, platform))
  {
    var ps := Sort(PackageLess, l.package);
    PackageOrder();
    SortCorrect(PackageLess, l.package);
    SortedPlatformsAscend(ps);
    SliceIsPlatform(ps, platform);
    OfPlatformSorted(ps, platform);
    SamePlatformPackages(ps, l.package, platform);
    SortCorrect(PackageLess, OfPlatform(l.package, platform));
    SortedUnique(PackageLess, OfPlatform(ps, platform), Sort(PackageLess, OfPlatform(l.package, platform)));
  }

  /** The preimage depends only on the multiset of the platform's own packages: not on the
      order of the input, on other platforms, or on the metadata. */
  lemma PreimageDependsOnOwnPackages(a: LockFile, b: LockFile, platform: string)
    requires multiset(OfPlatform(a.package, platform)) == multiset(OfPlatform(b.package, platform))
    ensures Preimage(a, platform) == Preimage(b, platform)
  {
    var p, q := OfPlatform(a.package, platform), OfPlatform(b.package, platform);
    PackageOrder();
    HashedAreOwnSorted(a, platform);
    HashedAreOwnSorted(b, platform);
    SortCorrect(PackageLess, p);
    SortCorrect(PackageLess, q);
    SortedUnique(PackageLess, Sort(PackageLess, p), Sort(PackageLess, q));
  }

  lemma PermutedPreimage(a: LockFile, b: LockFile, platform: string)
    requires multiset(a.package) == multiset(b.package)
    ensures Preimage(a, platform) == Preimage(b, platform)
  {
    SamePlatformPackages(a.package, b.package, platform);
    PreimageDependsOnOwnPackages(a, b, platform);
  }

  /** And it determines those packages up to the case of their digests. */
  lemma {:induction false} PreimageDeterminesPackages(a: LockFile, b: LockFile, platform: string)
    ensures Preimage(a, platform) == Preimage(b, platform) <==>
      CanonicalPackages(HashedPackages(a, platform)) == CanonicalPackages(HashedPackages(b, platform))
  {
    var p, q := HashedPackages(a, platform), HashedPackages(b, platform);
    PackagesReadBack(p);
    PackagesReadBack(q);
    if CanonicalPackages(p) == CanonicalPackages(q) { SamePackageListTree(p, q); }
  }
}
