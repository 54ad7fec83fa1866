/** The rules of a valid lock file, and which broken rule is the first one
    (crates/rattler_conda_lock/src/validation.rs). */
module LockRules {
  import opened Orders
  import opened LockModel

  const SHA256_DIGITS := 64
  const MD5_DIGITS := 32

  /** The checks made by other crates: package names, versions and constraints of either
      ecosystem, URLs, timestamps and Unicode white space. */
  datatype Checkers = Checkers(
    name: (string, Manager) -> bool,
    version: (string, Manager) -> bool,
    constraint: (string, string, Manager) -> bool,
    url: string -> bool,
    timestamp: string -> bool,
    blank: char -> bool)

  datatype Invalid =
    | InvalidPlatform(text: string) | DuplicatePlatform(text: string) | MissingContentHash(text: string)
    | UndeclaredContentHashPlatform(text: string) | InvalidContentHash(text: string)
    | EmptyChannel(text: string) | InvalidSourcePath(text: string) | DuplicateSource(text: string)
    | InvalidTimestamp | UndeclaredInputSource(text: string) | InvalidInputHashes(text: string)
    | MissingInputHashes(text: string) | InvalidPackage(package: Package, fault: Fault)
    | DuplicateIdentity(package: Package)

  /** What is wrong with a package taken by itself. */
  datatype Fault =
    | BadName | BadVersion | UndeclaredTarget | EmptyCategory
    | BadUrl | BadSourceUrl | BadRevision | BadDigest(length: nat) | BadBuild
    | BadDependencyName(name: string) | BadConstraint(name: string)

  // ---------------------------------------------------------------- Strings

  predicate IsDigit(c: char) { '0' <= c <= '9' }
  predicate IsHex(c: char) { IsDigit(c) || 'a' <= c <= 'f' || 'A' <= c <= 'F' }
  predicate IsLowerOrDigit(c: char) { 'a' <= c <= 'z' || IsDigit(c) }
  predicate IsBuildChar(c: char) { IsLowerOrDigit(c) || 'A' <= c <= 'Z' || c == '_' || c == '.' || c == '+' }

  predicate AllHex(s: string) { forall i :: 0 <= i < |s| ==> IsHex(s[i]) }

  predicate ValidDigest(s: string, length: nat) { |s| == length && AllHex(s) }

  /** Where a character first occurs, or the length. */
  function IndexOf(s: string, c: char): (i: nat)
    ensures i <= |s| && (i < |s| ==> s[i] == c) && forall j :: 0 <= j < i ==> s[j] != c
  {
    if s == [] || s[0] == c then 0 else 1 + IndexOf(s[1..], c)
  }

  /** An operating system and an architecture around the first dash. */
  predicate ValidPlatform(s: string) {
    var dash := IndexOf(s, '-');
    && |s| <= 32
    && 0 < dash < |s| - 1
    && forall i :: 0 <= i < |s| && i != dash ==> IsLowerOrDigit(s[i])
  }

  predicate ValidUrl(s: string, chk: Checkers) {
    s != [] && (forall i :: 0 <= i < |s| ==> !chk.blank(s[i])) && chk.url(s)
  }

  /** A relative path in either path syntax. */
  predicate ValidSourcePath(s: string, chk: Checkers) {
    && s != []
    && (forall i :: 0 <= i < |s| ==> s[i] != 0 as char)
    && s[0] != '/' && s[0] != '\\'
    && !(|s| > 1 && s[0] < 128 as char && s[1] == ':')
    && !chk.url(s)
  }

  predicate ValidTimestamp(s: string, chk: Checkers) {
    && |s| == 20
    && (forall i :: 0 <= i < 20 ==>
         if i == 4 || i == 7 then s[i] == '-'
         else if i == 10 then s[i] == 'T'
         else if i == 13 || i == 16 then s[i] == ':'
         else if i == 19 then s[i] == 'Z'
         else IsDigit(s[i]))
    && chk.timestamp(s)
  }

  predicate ValidHashes(h: Hashes) {
    (h.md5.Some? ==> ValidDigest(h.md5.value, MD5_DIGITS)) && (h.sha256.Some? ==> ValidDigest(h.sha256.value, SHA256_DIGITS))
  }

  /** The hash of a direct source is a revision: hexadecimal, of any length up to 64. */
  predicate ValidRevision(h: Hashes) {
    && (h.md5.Some? ==> 0 < |h.md5.value| <= SHA256_DIGITS && AllHex(h.md5.value))
    && (h.sha256.Some? ==> 0 < |h.sha256.value| <= SHA256_DIGITS && AllHex(h.sha256.value))
  }

  predicate ValidBuild(s: string) {
    0 < |s| <= 64 && forall i :: 0 <= i < |s| ==> IsBuildChar(s[i])
  }

  ghost predicate AllLowerOrDigit(s: string) { forall i :: 0 <= i < |s| ==> IsLowerOrDigit(s[i]) }

  /** A platform is an operating system and an architecture joined by a dash, both made of
      lower-case letters and digits, and at most 32 characters together. */
  lemma PlatformMeans(s: string)
    ensures ValidPlatform(s) <==>
      |s| <= 32 && exists os, arch ::
        s == os + "-" + arch && os != [] && arch != [] && AllLowerOrDigit(os) && AllLowerOrDigit(arch)
  {
    var dash := IndexOf(s, '-');
    if ValidPlatform(s) {
      var os, arch := s[..dash], s[dash + 1..];
      assert s == os + "-" + arch;
      assert AllLowerOrDigit(os) && AllLowerOrDigit(arch);
    }
    if os, arch :| s == os + "-" + arch && os != [] && arch != [] && AllLowerOrDigit(os) && AllLowerOrDigit(arch) {
      assert s[|os|] == '-';
      assert forall i :: 0 <= i < |os| ==> s[i] == os[i];
      assert forall i :: 0 <= i < |arch| ==> s[|os| + 1 + i] == arch[i];
      assert dash == |os|;
      forall i | 0 <= i < |s| && i != dash ensures IsLowerOrDigit(s[i]) {
        if i > dash { assert s[i] == arch[i - |os| - 1]; }
      }
    }
  }

  // ---------------------------------------------------------------- One package

  /** The rules checked before a package's identity is entered. */
  predicate IdentityRules(p: Package, platforms: set<string>, chk: Checkers) {
    chk.name(p.name, p.manager) && chk.version(p.version, p.manager) && p.platform in platforms && p.category != []
  }

  predicate UrlRules(p: Package, chk: Checkers) {
    ValidUrl(p.url, chk) && (p.source.Some? ==> ValidUrl(p.source.value, chk))
  }

  predicate HashRule(p: Package) { if p.source.Some? then ValidRevision(p.hash) else ValidHashes(p.hash) }

  predicate BuildRule(p: Package) { p.build.Some? && p.manager == Conda ==> ValidBuild(p.build.value) }

  predicate DependencyRule(p: Package, name: string, chk: Checkers)
    requires name in p.dependencies
  {
    chk.name(name, p.manager) && chk.constraint(name, p.dependencies[name], p.manager)
  }

  /** All rules of one package, except that its identity is its own. */
  predicate ValidPackage(p: Package, platforms: set<string>, chk: Checkers) {
    && IdentityRules(p, platforms, chk)
    && UrlRules(p, chk)
    && HashRule(p)
    && BuildRule(p)
    && forall k :: k in p.dependencies ==> DependencyRule(p, k, chk)
  }

  /** The dependencies of lower name keep their rule. */
  ghost predicate DependenciesGoodBefore(p: Package, name: string, chk: Checkers) {
    forall k :: k in p.dependencies && StringLess(k, name) ==> DependencyRule(p, k, chk)
  }

  /** The package breaks the rule the fault names, and keeps all rules checked earlier. */
  ghost predicate Explains(p: Package, platforms: set<string>, chk: Checkers, fault: Fault) {
    match fault
    case BadName => !chk.name(p.name, p.manager)
    case BadVersion => chk.name(p.name, p.manager) && !chk.version(p.version, p.manager)
    case UndeclaredTarget =>
      chk.name(p.name, p.manager) && chk.version(p.version, p.manager) && p.platform !in platforms
    case EmptyCategory =>
      chk.name(p.name, p.manager) && chk.version(p.version, p.manager) && p.platform in platforms && p.category == ""
    case BadUrl => IdentityRules(p, platforms, chk) && !ValidUrl(p.url, chk)
    case BadSourceUrl =>
      && IdentityRules(p, platforms, chk) && ValidUrl(p.url, chk)
      && p.source.Some? && !ValidUrl(p.source.value, chk)
    case BadRevision =>
      IdentityRules(p, platforms, chk) && UrlRules(p, chk) && p.source.Some? && !ValidRevision(p.hash)
    case BadDigest(length) =>
      && IdentityRules(p, platforms, chk) && UrlRules(p, chk) && p.source.None?
      && (if BadMd5(p) then length == MD5_DIGITS else length == SHA256_DIGITS && BadSha256(p))
    case BadBuild => RulesBeforeBuild(p, platforms, chk) && !BuildRule(p)
    case BadDependencyName(k) =>
      && RulesBeforeBuild(p, platforms, chk) && BuildRule(p) && DependenciesGoodBefore(p, k, chk)
      && k in p.dependencies && !chk.name(k, p.manager)
    case BadConstraint(k) =>
      && RulesBeforeBuild(p, platforms, chk) && BuildRule(p) && DependenciesGoodBefore(p, k, chk)
      && k in p.dependencies && chk.name(k, p.manager) && !chk.constraint(k, p.dependencies[k], p.manager)
  }

  predicate BadMd5(p: Package) { p.hash.md5.Some? && !ValidDigest(p.hash.md5.value, MD5_DIGITS) }
  predicate BadSha256(p: Package) { p.hash.sha256.Some? && !ValidDigest(p.hash.sha256.value, SHA256_DIGITS) }

  predicate RulesBeforeBuild(p: Package, platforms: set<string>, chk: Checkers) {
    IdentityRules(p, platforms, chk) && UrlRules(p, chk) && HashRule(p)
  }

  /** A package has at most one first fault. */
  lemma OneExplanation(p: Package, platforms: set<string>, chk: Checkers, f: Fault, g: Fault)
    requires Explains(p, platforms, chk, f) && Explains(p, platforms, chk, g)
    ensures f == g
  {
    StringOrder();
  }

  lemma ExplainedIsInvalid(p: Package, platforms: set<string>, chk: Checkers, f: Fault)
    requires Explains(p, platforms, chk, f)
    ensures !ValidPackage(p, platforms, chk)
  {
    if f.BadDependencyName? || f.BadConstraint? { assert !DependencyRule(p, f.name, chk); }
  }

  // ---------------------------------------------------------------- The rules of a lock

  function Elements(s: seq<string>): set<string> { set x | x in s }

  ghost predicate NoRepeats<T>(s: seq<T>) { forall i, j :: 0 <= i < j < |s| ==> s[i] != s[j] }

  ghost predicate ValidPlatforms(m: Metadata) {
    && NoRepeats(m.platforms)
    && forall p :: p in m.platforms ==> ValidPlatform(p) && p in m.contentHash
  }

  ghost predicate ValidContentHashes(m: Metadata) {
    forall k :: k in m.contentHash ==> k in m.platforms && ValidDigest(m.contentHash[k], SHA256_DIGITS)
  }

  predicate ValidChannel(c: Channel, chk: Checkers) { exists i :: 0 <= i < |c.url| && !chk.blank(c.url[i]) }

  ghost predicate ValidChannels(m: Metadata, chk: Checkers) {
    forall c :: c in m.channels ==> ValidChannel(c, chk)
  }

  ghost predicate ValidSources(m: Metadata, chk: Checkers) {
    NoRepeats(m.sources) && forall s :: s in m.sources ==> ValidSourcePath(s, chk)
  }

  ghost predicate ValidInputs(m: Metadata) {
    m.inputs.Some? ==>
      && (forall k :: k in m.inputs.value ==> k in m.sources && ValidHashes(m.inputs.value[k]))
      && (forall s :: s in m.sources ==> s in m.inputs.value)
  }

  ghost predicate ValidMetadata(m: Metadata, chk: Checkers) {
    && ValidPlatforms(m)
    && ValidContentHashes(m)
    && ValidChannels(m, chk)
    && ValidSources(m, chk)
    && ValidTime(m, chk)
    && ValidInputs(m)
  }

  ghost predicate Valid(l: LockFile, chk: Checkers) {
    && ValidMetadata(l.metadata, chk)
    && ValidPackages(l.package, Elements(l.metadata.platforms), chk)
  }

  ghost predicate ValidPackages(ps: seq<Package>, platforms: set<string>, chk: Checkers) {
    (forall p :: p in ps ==> ValidPackage(p, platforms, chk)) && DistinctIdentities(ps)
  }

  ghost predicate ValidTime(m: Metadata, chk: Checkers) {
    m.createdAt.Some? ==> ValidTimestamp(m.createdAt.value, chk)
  }

  /** The checks come in a fixed order. */
  function Stage(e: Invalid): nat {
    match e
    case InvalidPlatform(_) => 0
    case DuplicatePlatform(_) => 0
    case MissingContentHash(_) => 0
    case UndeclaredContentHashPlatform(_) => 1
    case InvalidContentHash(_) => 1
    case EmptyChannel(_) => 2
    case InvalidSourcePath(_) => 3
    case DuplicateSource(_) => 3
    case InvalidTimestamp => 4
    case UndeclaredInputSource(_) => 5
    case InvalidInputHashes(_) => 5
    case MissingInputHashes(_) => 5
    case InvalidPackage(_, _) => 6
    case DuplicateIdentity(_) => 6
  }

  /** All that is checked before a stage is right. */
  ghost predicate PassesBefore(m: Metadata, chk: Checkers, stage: nat) {
    && (stage > 0 ==> ValidPlatforms(m))
    && (stage > 1 ==> ValidContentHashes(m))
    && (stage > 2 ==> ValidChannels(m, chk))
    && (stage > 3 ==> ValidSources(m, chk))
    && (stage > 4 ==> ValidTime(m, chk))
    && (stage > 5 ==> ValidInputs(m))
  }

  // ---------------------------------------------------------------- The first broken rule

  ghost predicate PlatformsGood(m: Metadata, i: nat)
    requires i <= |m.platforms|
  {
    && NoRepeats(m.platforms[..i])
    && forall p :: p in m.platforms[..i] ==> ValidPlatform(p) && p in m.contentHash
  }

  /** The i-th platform is the first one at fault, and e says how. */
  ghost predicate PlatformFaultAt(m: Metadata, i: nat, e: Invalid) {
    && i < |m.platforms| && PlatformsGood(m, i)
    && var p := m.platforms[i];
      match e
      case InvalidPlatform(q) => q == p && !ValidPlatform(p)
      case DuplicatePlatform(q) => q == p && ValidPlatform(p) && p in m.platforms[..i]
      case MissingContentHash(q) => q == p && ValidPlatform(p) && p !in m.platforms[..i] && p !in m.contentHash
      case _ => false
  }

  predicate HashGood(m: Metadata, k: string)
    requires k in m.contentHash
  {
    k in m.platforms && ValidDigest(m.contentHash[k], SHA256_DIGITS)
  }

  ghost predicate HashFaultAt(m: Metadata, k: string, e: Invalid) {
    && k in m.contentHash && (forall j :: j in m.contentHash && StringLess(j, k) ==> HashGood(m, j))
    && match e
      case UndeclaredContentHashPlatform(q) => q == k && k !in m.platforms
      case InvalidContentHash(q) => q == k && k in m.platforms && !ValidDigest(m.contentHash[k], SHA256_DIGITS)
      case _ => false
  }

  ghost predicate ChannelFaultAt(m: Metadata, chk: Checkers, i: nat, e: Invalid) {
    && i < |m.channels| && (forall j :: 0 <= j < i ==> ValidChannel(m.channels[j], chk))
    && e == EmptyChannel(m.channels[i].url) && !ValidChannel(m.channels[i], chk)
  }

  ghost predicate SourcesGood(m: Metadata, chk: Checkers, i: nat)
    requires i <= |m.sources|
  {
    NoRepeats(m.sources[..i]) && forall s :: s in m.sources[..i] ==> ValidSourcePath(s, chk)
  }

  ghost predicate SourceFaultAt(m: Metadata, chk: Checkers, i: nat, e: Invalid) {
    && i < |m.sources| && SourcesGood(m, chk, i)
    && match e
      case InvalidSourcePath(q) => q == m.sources[i] && !ValidSourcePath(q, chk)
      case DuplicateSource(q) => q == m.sources[i] && ValidSourcePath(q, chk) && q in m.sources[..i]
      case _ => false
  }

  predicate InputGood(inputs: map<string, Hashes>, sources: set<string>, k: string)
    requires k in inputs
  {
    k in sources && ValidHashes(inputs[k])
  }

  /** k is the least input at fault; or all inputs are good and k is the least source without. */
  ghost predicate InputFaultAt(inputs: map<string, Hashes>, sources: set<string>, k: string, e: Invalid) {
    match e
    case UndeclaredInputSource(q) => q == k && k in inputs && InputsGoodBefore(inputs, sources, k) && k !in sources
    case InvalidInputHashes(q) =>
      q == k && k in inputs && InputsGoodBefore(inputs, sources, k) && k in sources && !ValidHashes(inputs[k])
    case MissingInputHashes(q) =>
      && q == k && k in sources && k !in inputs
      && (forall j :: j in inputs ==> InputGood(inputs, sources, j))
      && (forall j :: j in sources && StringLess(j, k) ==> j in inputs)
    case _ => false
  }

  ghost predicate InputsGoodBefore(inputs: map<string, Hashes>, sources: set<string>, k: string) {
    forall j :: j in inputs && StringLess(j, k) ==> InputGood(inputs, sources, j)
  }

  /** An earlier package has the same identity. */
  ghost predicate Taken(ps: seq<Package>, i: nat)
    requires i < |ps|
  {
    exists j :: 0 <= j < i && IdentityOf(ps[j]) == IdentityOf(ps[i])
  }

  ghost predicate PackageFaultAt(ps: seq<Package>, platforms: set<string>, chk: Checkers, i: nat, e: Invalid) {
    && i < |ps| && ValidPackages(ps[..i], platforms, chk)
    && match e
      case InvalidPackage(p, fault) =>
        p == ps[i] && Explains(p, platforms, chk, fault) && (IdentityRules(p, platforms, chk) ==> !Taken(ps, i))
      case DuplicateIdentity(p) => p == ps[i] && IdentityRules(p, platforms, chk) && Taken(ps, i)
      case _ => false
  }

  /** The lock breaks the rule an error names, where it says, and nothing earlier of the same
      kind is wrong. */
  ghost predicate Breaks(l: LockFile, chk: Checkers, e: Invalid) {
    var m := l.metadata;
    match Stage(e)
    case 0 => exists i :: PlatformFaultAt(m, i, e)
    case 1 => exists k :: HashFaultAt(m, k, e)
    case 2 => exists i :: ChannelFaultAt(m, chk, i, e)
    case 3 => exists i :: SourceFaultAt(m, chk, i, e)
    case 4 => m.createdAt.Some? && !ValidTimestamp(m.createdAt.value, chk)
    case 5 => m.inputs.Some? && exists k :: InputFaultAt(m.inputs.value, Elements(m.sources), k, e)
    case _ => exists i :: PackageFaultAt(l.package, Elements(m.platforms), chk, i, e)
  }

  /** The rule e names is the first one the lock breaks. */
  ghost predicate IsFirstError(l: LockFile, chk: Checkers, e: Invalid) {
    Breaks(l, chk, e) && PassesBefore(l.metadata, chk, Stage(e))
  }

  // ---------------------------------------------------------------- It is the only one

  lemma EarlierIsNew(s: seq<string>, i: nat, j: nat)
    requires i < j <= |s|
    ensures s[i] in s[..j]
    ensures NoRepeats(s[..j]) ==> s[i] !in s[..i]
  {
    assert s[..j][i] == s[i];
    assert forall k :: 0 <= k < i ==> s[..j][k] == s[..i][k];
  }

  lemma OnePlatformFault(m: Metadata, i: nat, e: Invalid, j: nat, f: Invalid)
    requires PlatformFaultAt(m, i, e) && PlatformFaultAt(m, j, f) && i <= j
    ensures e == f
    ensures !ValidPlatforms(m)
  {
    if i < j { EarlierIsNew(m.platforms, i, j); }
  }

  lemma OneHashFault(m: Metadata, k: string, e: Invalid, j: string, f: Invalid)
    requires HashFaultAt(m, k, e) && HashFaultAt(m, j, f)
    ensures e == f && !ValidContentHashes(m)
  {
    StringOrder();
    assert !HashGood(m, k) && !HashGood(m, j);
  }

  lemma OneSourceFault(m: Metadata, chk: Checkers, i: nat, e: Invalid, j: nat, f: Invalid)
    requires SourceFaultAt(m, chk, i, e) && SourceFaultAt(m, chk, j, f) && i <= j
    ensures e == f && !ValidSources(m, chk)
  {
    if i < j { EarlierIsNew(m.sources, i, j); }
  }

  lemma OneInputFault(m: Metadata, k: string, e: Invalid, j: string, f: Invalid)
    requires m.inputs.Some?
    requires InputFaultAt(m.inputs.value, Elements(m.sources), k, e)
    requires InputFaultAt(m.inputs.value, Elements(m.sources), j, f)
    ensures e == f && !ValidInputs(m)
  {
    StringOrder();
    var sources := Elements(m.sources);
    assert k in m.inputs.value ==> !InputGood(m.inputs.value, sources, k);
    assert j in m.inputs.value ==> !InputGood(m.inputs.value, sources, j);
  }

  lemma OnePackageFault(ps: seq<Package>, platforms: set<string>, chk: Checkers, i: nat, e: Invalid, j: nat, f: Invalid)
    requires PackageFaultAt(ps, platforms, chk, i, e) && PackageFaultAt(ps, platforms, chk, j, f) && i <= j
    ensures e == f && !ValidPackages(ps, platforms, chk)
  {
    FaultyIsInvalid(ps, platforms, chk, i, e);
    if i < j {
      FaultyIsInvalid(ps[..j], platforms, chk, i, e);
    } else {
      assert ps[i] == ps[j];
      if e.InvalidPackage? && f.InvalidPackage? { OneExplanation(ps[i], platforms, chk, e.fault, f.fault); }
      if e.InvalidPackage? && e.fault in {BadName, BadVersion, UndeclaredTarget, EmptyCategory} {
        assert !IdentityRules(ps[i], platforms, chk);
      }
    }
  }

  /** A list in which the i-th package is at fault is invalid. */
  lemma FaultyIsInvalid(ps: seq<Package>, platforms: set<string>, chk: Checkers, i: nat, e: Invalid)
    requires i < |ps|
    requires e.InvalidPackage? ==> Explains(ps[i], platforms, chk, e.fault)
    requires !e.InvalidPackage? ==> Taken(ps, i)
    ensures !ValidPackages(ps, platforms, chk)
  {
    if e.InvalidPackage? {
      ExplainedIsInvalid(ps[i], platforms, chk, e.fault);
      assert ps[i] in ps;
    }
  }

  lemma OneChannelFault(m: Metadata, chk: Checkers, i: nat, e: Invalid, j: nat, f: Invalid)
    requires ChannelFaultAt(m, chk, i, e) && ChannelFaultAt(m, chk, j, f)
    ensures e == f && !ValidChannels(m, chk)
  {
    assert m.channels[i] in m.channels;
  }

  /** Two faults of one stage are the same, and the stage does not pass. */
  lemma OneEarlyFault(l: LockFile, chk: Checkers, e: Invalid, f: Invalid)
    requires Breaks(l, chk, e) && Breaks(l, chk, f) && Stage(e) == Stage(f) <= 1
    ensures e == f && !PassesBefore(l.metadata, chk, Stage(e) + 1)
  {
    var m := l.metadata;
    if Stage(e) == 0 {
      var i: nat :| PlatformFaultAt(m, i, e);
      var j: nat :| PlatformFaultAt(m, j, f);
      if i <= j { OnePlatformFault(m, i, e, j, f); } else { OnePlatformFault(m, j, f, i, e); }
    } else {
      var i :| HashFaultAt(m, i, e);
      var j :| HashFaultAt(m, j, f);
      OneHashFault(m, i, e, j, f);
    }
  }

  lemma OneMiddleFault(l: LockFile, chk: Checkers, e: Invalid, f: Invalid)
    requires Breaks(l, chk, e) && Breaks(l, chk, f) && 2 <= Stage(e) == Stage(f) <= 4
    ensures e == f && !PassesBefore(l.metadata, chk, Stage(e) + 1)
  {
    var m := l.metadata;
    if Stage(e) == 2 {
      var i: nat :| ChannelFaultAt(m, chk, i, e);
      var j: nat :| ChannelFaultAt(m, chk, j, f);
      OneChannelFault(m, chk, i, e, j, f);
    } else if Stage(e) == 3 {
      var i: nat :| SourceFaultAt(m, chk, i, e);
      var j: nat :| SourceFaultAt(m, chk, j, f);
      if i <= j { OneSourceFault(m, chk, i, e, j, f); } else { OneSourceFault(m, chk, j, f, i, e); }
    }
  }

  lemma OneLateFault(l: LockFile, chk: Checkers, e: Invalid, f: Invalid)
    requires Breaks(l, chk, e) && Breaks(l, chk, f) && 5 <= Stage(e) == Stage(f)
    ensures e == f
    ensures if Stage(e) == 5 then !ValidInputs(l.metadata) else !ValidPackages(l.package, Elements(l.metadata.platforms), chk)
  {
    var m := l.metadata;
    if Stage(e) == 5 {
      var i :| InputFaultAt(m.inputs.value, Elements(m.sources), i, e);
      var j :| InputFaultAt(m.inputs.value, Elements(m.sources), j, f);
      OneInputFault(m, i, e, j, f);
    } else {
      var platforms := Elements(m.platforms);
      var i: nat :| PackageFaultAt(l.package, platforms, chk, i, e);
      var j: nat :| PackageFaultAt(l.package, platforms, chk, j, f);
      if i <= j { OnePackageFault(l.package, platforms, chk, i, e, j, f); }
      else { OnePackageFault(l.package, platforms, chk, j, f, i, e); }
    }
  }

  lemma OneFaultOfStage(l: LockFile, chk: Checkers, e: Invalid, f: Invalid)
    requires Breaks(l, chk, e) && Breaks(l, chk, f) && Stage(e) == Stage(f)
    ensures e == f && !Valid(l, chk)
    ensures forall stage :: 6 >= stage > Stage(e) ==> !PassesBefore(l.metadata, chk, stage)
  {
    if Stage(e) <= 1 { OneEarlyFault(l, chk, e, f); }
    else if Stage(e) <= 4 { OneMiddleFault(l, chk, e, f); }
    else { OneLateFault(l, chk, e, f); }
  }

  /** There is at most one first error: the rules leave no choice of what to report. */
  lemma OneFirstError(l: LockFile, chk: Checkers, e: Invalid, f: Invalid)
    requires IsFirstError(l, chk, e) && IsFirstError(l, chk, f)
    ensures e == f && !Valid(l, chk)
  {
    OneFaultOfStage(l, chk, e, e);
    OneFaultOfStage(l, chk, f, f);
    OneFaultOfStage(l, chk, e, f);
  }
}
