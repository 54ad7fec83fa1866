/** Semantic validation (crates/rattler_conda_lock/src/validation.rs), and what a written
    lock that passed it gives back. */
module LockValidation {
  import opened Orders
  import opened LockModel
  import opened LockTree
  import opened LockParser
  import opened LockRoundTrip
  import opened LockRules

  // ---------------------------------------------------------------- The checks of one package

  /** The checks made before a package's identity is entered. */
  function IdentityFault(p: Package, platforms: set<string>, chk: Checkers): Option<Fault> {
    if !chk.name(p.name, p.manager) then Some(BadName)
    else if !chk.version(p.version, p.manager) then Some(BadVersion)
    else if p.platform !in platforms then Some(UndeclaredTarget)
    else if p.category == [] then Some(EmptyCategory)
    else None
  }

  function HashFault(p: Package): Option<Fault> {
    if p.source.Some? then if ValidRevision(p.hash) then None else Some(BadRevision)
    else if p.hash.md5.Some? && !ValidDigest(p.hash.md5.value, MD5_DIGITS) then Some(BadDigest(MD5_DIGITS))
    else if p.hash.sha256.Some? && !ValidDigest(p.hash.sha256.value, SHA256_DIGITS) then Some(BadDigest(SHA256_DIGITS))
    else None
  }

  function DependencyFault(names: seq<string>, p: Package, chk: Checkers): Option<Fault>
    requires forall k :: k in names ==> k in p.dependencies
  {
    if names == [] then None
    else if !chk.name(names[0], p.manager) then Some(BadDependencyName(names[0]))
    else if !chk.constraint(names[0], p.dependencies[names[0]], p.manager) then Some(BadConstraint(names[0]))
    else DependencyFault(names[1..], p, chk)
  }

  /** The checks made afterwards. */
  function ContentFault(p: Package, chk: Checkers): Option<Fault> {
    if !ValidUrl(p.url, chk) then Some(BadUrl)
    else if p.source.Some? && !ValidUrl(p.source.value, chk) then Some(BadSourceUrl)
    else if HashFault(p).Some? then HashFault(p)
    else if p.build.Some? && p.manager == Conda && !ValidBuild(p.build.value) then Some(BadBuild)
    else DependencyFault(Keys(p.dependencies), p, chk)
  }

  function FirstFault(p: Package, platforms: set<string>, chk: Checkers): Option<Fault> {
    var first := IdentityFault(p, platforms, chk);
    if first.Some? then first else ContentFault(p, chk)
  }

  /** What the dependency checks report is the least name at fault. */
  lemma {:induction false} DependencyFaultMeans(names: seq<string>, p: Package, chk: Checkers)
    requires Increasing(StringLess, names) && forall k :: k in names ==> k in p.dependencies
    ensures
      match DependencyFault(names, p, chk)
      case None => forall k :: k in names ==> DependencyRule(p, k, chk)
      case Some(fault) =>
        && (fault.BadDependencyName? || fault.BadConstraint?) && fault.name in names
        && (forall k :: k in names && StringLess(k, fault.name) ==> DependencyRule(p, k, chk))
        && (if fault.BadDependencyName? then !chk.name(fault.name, p.manager)
            else chk.name(fault.name, p.manager) && !chk.constraint(fault.name, p.dependencies[fault.name], p.manager))
  {
    if names != [] {
      DependencyFaultMeans(names[1..], p, chk);
      assert names == [names[0]] + names[1..];
      assert names[0] in names;
      StringOrder();
      forall k | k in names[1..] ensures StringLess(names[0], k) {
        var i :| 0 <= i < |names[1..]| && names[1..][i] == k;
        assert names[i + 1] == k;
      }
    }
  }

  lemma HashFaultMeans(p: Package)
    ensures
      match HashFault(p)
      case None => HashRule(p)
      case Some(fault) =>
        if p.source.Some? then fault == BadRevision && !ValidRevision(p.hash)
        else if BadMd5(p) then fault == BadDigest(MD5_DIGITS) else fault == BadDigest(SHA256_DIGITS) && BadSha256(p)
  {
  }

  lemma {:induction false} ContentFaultExplains(p: Package, platforms: set<string>, chk: Checkers)
    requires IdentityRules(p, platforms, chk)
    ensures
      match ContentFault(p, chk)
      case None => ValidPackage(p, platforms, chk)
      case Some(fault) => Explains(p, platforms, chk, fault)
  {
    HashFaultMeans(p);
    var names := Keys(p.dependencies);
    if UrlRules(p, chk) && HashFault(p).None? && BuildRule(p) {
      DependencyFaultMeans(names, p, chk);
      assert forall k :: k in p.dependencies <==> k in names;
    }
  }

  lemma FirstFaultExplains(p: Package, platforms: set<string>, chk: Checkers)
    ensures
      match FirstFault(p, platforms, chk)
      case None => ValidPackage(p, platforms, chk)
      case Some(fault) => Explains(p, platforms, chk, fault)
  {
    if IdentityFault(p, platforms, chk).None? { ContentFaultExplains(p, platforms, chk); }
  }

  /** The checks in their order report exactly the first fault of a package. */
  lemma {:induction false} FirstFaultIff(p: Package, platforms: set<string>, chk: Checkers)
    ensures FirstFault(p, platforms, chk) == None <==> ValidPackage(p, platforms, chk)
    ensures forall fault :: FirstFault(p, platforms, chk) == Some(fault) <==> Explains(p, platforms, chk, fault)
    ensures IdentityFault(p, platforms, chk) == None <==> IdentityRules(p, platforms, chk)
  {
    FirstFaultExplains(p, platforms, chk);
    var first := FirstFault(p, platforms, chk);
    if first.Some? { ExplainedIsInvalid(p, platforms, chk, first.value); }
    forall fault | Explains(p, platforms, chk, fault) ensures first == Some(fault) {
      ExplainedIsInvalid(p, platforms, chk, fault);
      if first.Some? { OneExplanation(p, platforms, chk, first.value, fault); }
    }
  }

  // ---------------------------------------------------------------- The checks in order

  method CheckPlatforms(l: LockFile, chk: Checkers) returns (e: Option<Invalid>, platforms: set<string>)
    ensures e.None? <==> ValidPlatforms(l.metadata)
    ensures e.None? ==> platforms == Elements(l.metadata.platforms)
    ensures e.Some? ==> Breaks(l, chk, e.value) && Stage(e.value) == 0
  {
    platforms := {};
    var ps := l.metadata.platforms;
    for i := 0 to |ps|
      invariant platforms == Elements(ps[..i])
      invariant PlatformsGood(l.metadata, i)
    {
      assert ps[i] in platforms <==> ps[i] in ps[..i];
      e := None;
      if !ValidPlatform(ps[i]) { e := Some(InvalidPlatform(ps[i])); }
      else if ps[i] in platforms { e := Some(DuplicatePlatform(ps[i])); }
      else if ps[i] !in l.metadata.contentHash { e := Some(MissingContentHash(ps[i])); }
      if e.Some? {
        assert PlatformFaultAt(l.metadata, i, e.value);
        OnePlatformFault(l.metadata, i, e.value, i, e.value);
        return;
      }
      platforms := platforms + {ps[i]};
      assert ps[..i + 1] == ps[..i] + [ps[i]];
    }
    assert ps[..|ps|] == ps;
    e := None;
  }

  /** In an ascending list of all keys, what is below a key comes before it. */
  lemma KeysBefore(keys: seq<string>, i: nat)
    requires Increasing(StringLess, keys) && i < |keys|
    ensures forall k :: k in keys && StringLess(k, keys[i]) ==> k in keys[..i]
  {
    StringOrder();
    forall j | i <= j < |keys| ensures !StringLess(keys[j], keys[i]) {}
    forall k | k in keys && StringLess(k, keys[i]) ensures k in keys[..i] {
      var j :| 0 <= j < |keys| && keys[j] == k;
      assert keys[..i][j] == k;
    }
  }

  method CheckContentHashes(l: LockFile, chk: Checkers, platforms: set<string>) returns (e: Option<Invalid>)
    requires platforms == Elements(l.metadata.platforms)
    ensures e.None? <==> ValidContentHashes(l.metadata)
    ensures e.Some? ==> Breaks(l, chk, e.value) && Stage(e.value) == 1
  {
    var m := l.metadata.contentHash;
    var keys := Keys(m);
    for i := 0 to |keys|
      invariant forall k :: k in keys[..i] ==> HashGood(l.metadata, k)
    {
      assert keys[i] in keys;
      e := None;
      if keys[i] !in platforms { e := Some(UndeclaredContentHashPlatform(keys[i])); }
      else if !ValidDigest(m[keys[i]], SHA256_DIGITS) { e := Some(InvalidContentHash(keys[i])); }
      if e.Some? {
        KeysBefore(keys, i);
        assert HashFaultAt(l.metadata, keys[i], e.value);
        return;
      }
      assert keys[..i + 1] == keys[..i] + [keys[i]];
    }
    assert keys[..|keys|] == keys;
    forall k | k in m ensures HashGood(l.metadata, k) { assert k in keys; }
    e := None;
  }

  method CheckChannels(l: LockFile, chk: Checkers) returns (e: Option<Invalid>)
    ensures e.None? <==> ValidChannels(l.metadata, chk)
    ensures e.Some? ==> Breaks(l, chk, e.value) && Stage(e.value) == 2
  {
    var cs := l.metadata.channels;
    for i := 0 to |cs|
      invariant forall j :: 0 <= j < i ==> ValidChannel(cs[j], chk)
    {
      if !ValidChannel(cs[i], chk) {
        e := Some(EmptyChannel(cs[i].url));
        assert ChannelFaultAt(l.metadata, chk, i, e.value);
        return;
      }
    }
    e := None;
  }

  method CheckSources(l: LockFile, chk: Checkers) returns (e: Option<Invalid>, sources: set<string>)
    ensures e.None? <==> ValidSources(l.metadata, chk)
    ensures e.None? ==> sources == Elements(l.metadata.sources)
    ensures e.Some? ==> Breaks(l, chk, e.value) && Stage(e.value) == 3
  {
    sources := {};
    var ss := l.metadata.sources;
    for i := 0 to |ss|
      invariant sources == Elements(ss[..i])
      invariant SourcesGood(l.metadata, chk, i)
    {
      assert ss[i] in sources <==> ss[i] in ss[..i];
      e := None;
      if !ValidSourcePath(ss[i], chk) { e := Some(InvalidSourcePath(ss[i])); }
      else if ss[i] in sources { e := Some(DuplicateSource(ss[i])); }
      if e.Some? {
        assert SourceFaultAt(l.metadata, chk, i, e.value);
        OneSourceFault(l.metadata, chk, i, e.value, i, e.value);
        return;
      }
      sources := sources + {ss[i]};
      assert ss[..i + 1] == ss[..i] + [ss[i]];
    }
    assert ss[..|ss|] == ss;
    e := None;
  }

  method CheckInputs(l: LockFile, chk: Checkers, sources: set<string>) returns (e: Option<Invalid>)
    requires sources == Elements(l.metadata.sources)
    ensures e.None? <==> ValidInputs(l.metadata)
    ensures e.Some? ==> Breaks(l, chk, e.value) && Stage(e.value) == 5
  {
    if l.metadata.inputs.None? { return None; }
    var m := l.metadata.inputs.value;
    e := CheckHashedInputs(m, sources);
    if e.None? { e := CheckAllHashed(m, sources); }
    if e.Some? { assert InputFaultAt(m, sources, e.value.text, e.value); }
  }

  method CheckHashedInputs(m: map<string, Hashes>, sources: set<string>) returns (e: Option<Invalid>)
    ensures e.None? <==> forall k :: k in m ==> InputGood(m, sources, k)
    ensures e.Some? ==>
      (e.value.UndeclaredInputSource? || e.value.InvalidInputHashes?) && InputFaultAt(m, sources, e.value.text, e.value)
  {
    var keys := Keys(m);
    for i := 0 to |keys|
      invariant forall k :: k in keys[..i] ==> InputGood(m, sources, k)
    {
      assert keys[i] in keys;
      KeysBefore(keys, i);
      if keys[i] !in sources { return Some(UndeclaredInputSource(keys[i])); }
      if !ValidHashes(m[keys[i]]) { return Some(InvalidInputHashes(keys[i])); }
      assert keys[..i + 1] == keys[..i] + [keys[i]];
    }
    assert keys[..|keys|] == keys;
    forall k | k in m ensures InputGood(m, sources, k) { assert k in keys; }
    e := None;
  }

  method CheckAllHashed(m: map<string, Hashes>, sources: set<string>) returns (e: Option<Invalid>)
    requires forall k :: k in m ==> InputGood(m, sources, k)
    ensures e.None? <==> forall s :: s in sources ==> s in m
    ensures e.Some? ==> e.value.MissingInputHashes? && InputFaultAt(m, sources, e.value.text, e.value)
  {
    StringOrder();
    var declared := SortedSeq(StringLess, sources);
    for i := 0 to |declared|
      invariant forall j :: 0 <= j < i ==> declared[j] in m
    {
      if declared[i] !in m {
        LeastMissing(m, sources, declared, i);
        return Some(MissingInputHashes(declared[i]));
      }
    }
    forall s | s in sources ensures s in m { assert s in declared; }
    e := None;
  }

  lemma LeastMissing(m: map<string, Hashes>, sources: set<string>, declared: seq<string>, i: nat)
    requires i < |declared| && Increasing(StringLess, declared) && forall s :: s in declared <==> s in sources
    requires declared[i] !in m && forall j :: 0 <= j < i ==> declared[j] in m
    requires forall k :: k in m ==> InputGood(m, sources, k)
    ensures InputFaultAt(m, sources, declared[i], MissingInputHashes(declared[i]))
  {
    KeysBefore(declared, i);
    assert declared[i] in declared;
    forall s | s in sources && StringLess(s, declared[i]) ensures s in m { assert s in declared; }
  }

  /** The checks of one package, when its identity may already be taken. */
  method CheckPackage(p: Package, taken: bool, chk: Checkers, platforms: set<string>) returns (e: Option<Invalid>)
    ensures e.None? <==> ValidPackage(p, platforms, chk) && !taken
    ensures e.Some? ==>
      if taken && IdentityRules(p, platforms, chk) then e.value == DuplicateIdentity(p)
      else e.value.InvalidPackage? && e.value.package == p && Explains(p, platforms, chk, e.value.fault)
  {
    FirstFaultIff(p, platforms, chk);
    var fault := IdentityFault(p, platforms, chk);
    if fault.Some? { return Some(InvalidPackage(p, fault.value)); }
    if taken { return Some(DuplicateIdentity(p)); }
    fault := ContentFault(p, chk);
    if fault.Some? { return Some(InvalidPackage(p, fault.value)); }
    e := None;
  }

  lemma OneMoreValid(ps: seq<Package>, i: nat, platforms: set<string>, chk: Checkers)
    requires i < |ps| && ValidPackages(ps[..i], platforms, chk)
    ensures ValidPackages(ps[..i + 1], platforms, chk) <==>
      ValidPackage(ps[i], platforms, chk) && !Taken(ps, i)
  {
    var less, more := ps[..i], ps[..i + 1];
    assert more == less + [ps[i]];
    assert forall p :: p in more <==> p in less || p == ps[i];
    assert more[i] == ps[i] && forall j :: 0 <= j < i ==> more[j] == ps[j];
  }

  method CheckPackages(l: LockFile, chk: Checkers, platforms: set<string>) returns (e: Option<Invalid>)
    requires platforms == Elements(l.metadata.platforms)
    ensures e.None? <==> ValidPackages(l.package, platforms, chk)
    ensures e.Some? ==> Breaks(l, chk, e.value) && Stage(e.value) == 6
  {
    var identities: set<Identity> := {};
    var ps := l.package;
    for i := 0 to |ps|
      invariant identities == set j | 0 <= j < i :: IdentityOf(ps[j])
      invariant ValidPackages(ps[..i], platforms, chk)
    {
      OneMoreValid(ps, i, platforms, chk);
      assert IdentityOf(ps[i]) in identities <==> Taken(ps, i);
      e := CheckPackage(ps[i], IdentityOf(ps[i]) in identities, chk, platforms);
      if e.Some? {
        assert PackageFaultAt(ps, platforms, chk, i, e.value);
        OnePackageFault(ps, platforms, chk, i, e.value, i, e.value);
        return;
      }
      identities := identities + {IdentityOf(ps[i])};
    }
    assert ps[..|ps|] == ps;
    e := None;
  }

  /** No error is reported exactly for valid locks, and a reported one is the first there is. */
  method Validate(l: LockFile, chk: Checkers) returns (e: Option<Invalid>)
    ensures e.None? <==> Valid(l, chk)
    ensures e.Some? ==> IsFirstError(l, chk, e.value)
  {
    var platforms, sources;
    e, platforms := CheckPlatforms(l, chk);
    if e.None? { e := CheckContentHashes(l, chk, platforms); }
    if e.None? { e := CheckChannels(l, chk); }
    if e.None? {
      e, sources := CheckSources(l, chk);
      if e.None? && l.metadata.createdAt.Some? && !ValidTimestamp(l.metadata.createdAt.value, chk) {
        e := Some(InvalidTimestamp);
      }
      if e.None? { e := CheckInputs(l, chk, sources); }
    }
    if e.None? { e := CheckPackages(l, chk, platforms); }
    if e.Some? { OneFaultOfStage(l, chk, e.value, e.value); }
  }

  /** Validate, then emit; an invalid lock is never written. */
  method ToYaml(l: LockFile, chk: Checkers) returns (r: Result<Raw, Invalid>)
    ensures r.Success? <==> Valid(l, chk)
    ensures r.Success? ==> r.value == LockTreeOf(l)
    ensures r.Failure? ==> IsFirstError(l, chk, r.error)
  {
    var e := Validate(l, chk);
    if e.Some? { return Failure(e.value); }
    return Success(LockTreeOf(l));
  }

  // ---------------------------------------------------------------- Canonical form and validity

  lemma LowercaseHex(s: string)
    ensures |Lowercase(s)| == |s| && (AllHex(Lowercase(s)) <==> AllHex(s))
  {
    LowercaseIdempotent(s);
    forall i | 0 <= i < |s| ensures IsHex(Lower(s)[i]) <==> IsHex(s[i]) {}
  }

  lemma CanonicalHashesValid(h: Hashes)
    ensures ValidHashes(CanonicalHashes(h)) <==> ValidHashes(h)
    ensures ValidRevision(CanonicalHashes(h)) <==> ValidRevision(h)
  {
    if h.md5.Some? { LowercaseHex(h.md5.value); }
    if h.sha256.Some? { LowercaseHex(h.sha256.value); }
  }

  lemma {:induction false} CountsAtMostOne<T>(s: seq<T>)
    ensures NoRepeats(s) <==> forall x :: multiset(s)[x] <= 1
  {
    if s != [] {
      var rest := s[1..];
      CountsAtMostOne(rest);
      assert s == [s[0]] + rest;
      if NoRepeats(s) {
        assert s[0] !in rest;
      }
      if forall x :: multiset(s)[x] <= 1 {
        assert multiset(s)[s[0]] <= 1;
        forall x ensures multiset(rest)[x] <= 1 { assert multiset(s)[x] <= 1; }
        assert s[0] !in rest;
      }
    }
  }

  /** Sorting strings keeps which ones occur, and how often. */
  lemma SortKeepsElements(s: seq<string>)
    ensures forall x :: x in Sort(StringLess, s) <==> x in s
    ensures NoRepeats(Sort(StringLess, s)) <==> NoRepeats(s)
  {
    var t := Sort(StringLess, s);
    StringOrder();
    SortCorrect(StringLess, s);
    assert forall x :: x in t <==> x in multiset(t);
    assert forall x :: x in s <==> x in multiset(s);
    CountsAtMostOne(t);
    CountsAtMostOne(s);
  }

  lemma CanonicalContentHashesValid(m: Metadata)
    ensures ValidContentHashes(CanonicalMetadata(m)) <==> ValidContentHashes(m)
  {
    var c := CanonicalMetadata(m);
    SortKeepsElements(m.platforms);
    forall k | k in m.contentHash
      ensures ValidDigest(c.contentHash[k], SHA256_DIGITS) <==> ValidDigest(m.contentHash[k], SHA256_DIGITS)
    {
      LowercaseHex(m.contentHash[k]);
    }
  }

  lemma CanonicalInputsValid(m: Metadata)
    ensures ValidInputs(CanonicalMetadata(m)) <==> ValidInputs(m)
  {
    if m.inputs.Some? {
      var c := CanonicalMetadata(m);
      forall k | k in m.inputs.value ensures ValidHashes(c.inputs.value[k]) <==> ValidHashes(m.inputs.value[k]) {
        CanonicalHashesValid(m.inputs.value[k]);
      }
    }
  }

  lemma CanonicalMetadataValid(m: Metadata, chk: Checkers)
    ensures ValidMetadata(CanonicalMetadata(m), chk) <==> ValidMetadata(m, chk)
    ensures forall p :: p in CanonicalMetadata(m).platforms <==> p in m.platforms
  {
    SortKeepsElements(m.platforms);
    CanonicalContentHashesValid(m);
    CanonicalInputsValid(m);
  }

  /** The canonical form is valid exactly when the lock is. */
  lemma CanonicalValid(l: LockFile, chk: Checkers)
    ensures Valid(Canonical(l), chk) <==> Valid(l, chk)
  {
    var c, ps := Canonical(l), Sort(PackageLess, l.package);
    CanonicalMetadataValid(l.metadata, chk);
    assert Elements(c.metadata.platforms) == Elements(l.metadata.platforms);
    PackageOrder();
    SortCorrect(PackageLess, l.package);
    SamePackagesValid(ps, l.package, Elements(l.metadata.platforms), chk);
    CanonicalPackagesValid(ps, Elements(l.metadata.platforms), chk);
  }

  lemma SamePackagesValid(a: seq<Package>, b: seq<Package>, platforms: set<string>, chk: Checkers)
    requires multiset(a) == multiset(b)
    ensures (forall p :: p in a ==> ValidPackage(p, platforms, chk)) <==> (forall p :: p in b ==> ValidPackage(p, platforms, chk))
    ensures DistinctIdentities(a) <==> DistinctIdentities(b)
  {
    assert forall p :: p in a <==> p in multiset(a);
    assert forall p :: p in b <==> p in multiset(b);
    if DistinctIdentities(a) { DistinctPermuted(a, b); }
    if DistinctIdentities(b) { DistinctPermuted(b, a); }
  }

  lemma CanonicalPackagesValid(ps: seq<Package>, platforms: set<string>, chk: Checkers)
    ensures
      var cs := CanonicalPackages(ps);
      && ((forall p :: p in cs ==> ValidPackage(p, platforms, chk)) <==> (forall p :: p in ps ==> ValidPackage(p, platforms, chk)))
      && (DistinctIdentities(cs) <==> DistinctIdentities(ps))
  {
    var cs := CanonicalPackages(ps);
    forall i | 0 <= i < |ps| ensures ValidPackage(cs[i], platforms, chk) <==> ValidPackage(ps[i], platforms, chk) {
      CanonicalHashesValid(ps[i].hash);
    }
    forall i | 0 <= i < |ps| ensures cs[i] in cs && ps[i] in ps && IdentityOf(cs[i]) == IdentityOf(ps[i]) {}
  }

  /** Whatever valid lock is written: reading it back succeeds, gives its canonical form,
      which is valid and is written as the very same document. */
  lemma {:induction false} WriteThenRead(l: LockFile, chk: Checkers)
    requires Valid(l, chk)
    ensures
      var back := Parse(LockTreeOf(l));
      && back == Success(Canonical(l))
      && Valid(back.value, chk)
      && Canonical(back.value) == back.value
      && LockTreeOf(back.value) == LockTreeOf(l)
  {
    RoundTrip(l);
    CanonicalValid(l, chk);
    CanonicalIdempotent(l);
    RewritingIsStable(l);
  }
}
