/** Documents written by hand: every liberty the parser allows, used at once
    (crates/rattler_conda_lock/src/parse.rs). */
module LockHandWritten {
  import opened Orders
  import opened LockModel
  import opened LockTree
  import opened LockParser
  import opened LockRoundTrip
  import opened LockGrammar

  // ---------------------------------------------------------------- Loose documents

  /** An unquoted scalar that is spelled s. */
  function Loose(s: string): Raw { Number("0", s) }

  function LooseText(s: string): Option<Raw> { Some(Loose(s)) }

  /** No value, written as an explicit null. */
  function LooseOption(o: Option<string>): Option<Raw> { if o.Some? then Some(Loose(o.value)) else Some(Null) }

  function LooseStrings(s: seq<string>): Raw { Sequence(seq(|s|, i requires 0 <= i < |s| => Loose(s[i]))) }

  function LooseHashesFields(h: Hashes): seq<(string, Option<Raw>)> {
    [("sha256", LooseOption(h.sha256)), ("md5", LooseOption(h.md5))]
  }

  function LooseHashes(h: Hashes): Raw { Mapping(Present(LooseHashesFields(h))) }

  function LooseSourceFields(url: string): seq<(string, Option<Raw>)> {
    [("url", LooseText(url)), ("type", LooseText("url"))]
  }

  function LooseSource(source: Option<string>): Option<Raw> {
    if source.Some? then Some(Mapping(Present(LooseSourceFields(source.value)))) else Some(Null)
  }

  /** The category main and empty dependencies are left out, and the fields come backwards. */
  function LoosePackageFields(p: Package): seq<(string, Option<Raw>)> {
    [("version", LooseText(p.version)),
     ("url", LooseText(p.url)),
     ("source", LooseSource(p.source)),
     ("platform", LooseText(p.platform)),
     ("optional", Some(Bool(p.optional, if p.optional then "true" else "false"))),
     ("name", LooseText(p.name)),
     ("manager", LooseText(ManagerName(p.manager))),
     ("hash", Some(LooseHashes(p.hash))),
     ("dependencies", if p.dependencies == map[] then None else Some(MapTree(p.dependencies, Loose))),
     ("category", if p.category == "main" then None else LooseText(p.category)),
     ("build", LooseOption(p.build))]
  }

  function LoosePackage(p: Package): Raw { Mapping(Present(LoosePackageFields(p))) }

  function LooseChannelFields(c: Channel): seq<(string, Option<Raw>)> {
    [("used_env_vars", Some(LooseStrings(c.usedEnvVars))), ("url", LooseText(c.url))]
  }

  /** A channel without variables is a bare text. */
  function LooseChannel(c: Channel): Raw {
    if c.usedEnvVars == [] then String(c.url) else Mapping(Present(LooseChannelFields(c)))
  }

  function LooseMetadataFields(m: Metadata): seq<(string, Option<Raw>)> {
    [("custom_metadata", if m.custom.Some? then Some(MapTree(m.custom.value, Loose)) else Some(Null)),
     ("inputs_metadata", if m.inputs.Some? then Some(MapTree(m.inputs.value, LooseHashes)) else None),
     ("git_metadata", LooseGit(m.git)),
     ("time_metadata", if m.createdAt.Some? then Some(Mapping([Field("created_at", Loose(m.createdAt.value))])) else None),
     ("sources", Some(LooseStrings(m.sources))),
     ("platforms", Some(LooseStrings(m.platforms))),
     ("channels", Some(Sequence(seq(|m.channels|, i requires 0 <= i < |m.channels| => LooseChannel(m.channels[i]))))),
     ("content_hash", Some(MapTree(m.contentHash, Loose)))]
  }

  function LooseGitFields(g: GitMetadata): seq<(string, Option<Raw>)> {
    [("git_sha", LooseOption(g.sha)), ("git_user_email", LooseOption(g.userEmail)), ("git_user_name", LooseOption(g.userName))]
  }

  function LooseGit(g: Option<GitMetadata>): Option<Raw> {
    if g.Some? then Some(Mapping(Present(LooseGitFields(g.value)))) else Some(Null)
  }

  /** The lock as it stands, without a schema version. */
  function LooseLockFields(l: LockFile): seq<(string, Option<Raw>)> {
    [("package", Some(Sequence(seq(|l.package|, i requires 0 <= i < |l.package| => LoosePackage(l.package[i]))))),
     ("metadata", Some(Mapping(Present(LooseMetadataFields(l.metadata)))))]
  }

  function LooseLock(l: LockFile): Raw { Mapping(Present(LooseLockFields(l))) }

  // ---------------------------------------------------------------- They have the form of the lock

  /** A struct of distinct names, looked up by position. */
  lemma {:induction false} StructLookups(fields: seq<(string, Option<Raw>)>)
    requires DistinctNames(fields)
    ensures forall i :: 0 <= i < |fields| ==> Holds(ToMap(Present(fields)), fields[i].0, fields[i].1)
    ensures forall k :: k in ToMap(Present(fields)) ==> exists i :: 0 <= i < |fields| && fields[i].0 == k
  {
    PresentReadsBack(fields);
  }

  lemma {:induction false} OnlyThese(fields: seq<(string, Option<Raw>)>, known: set<string>)
    requires DistinctNames(fields) && forall i :: 0 <= i < |fields| ==> Known(fields[i], known)
    ensures OnlyFields(ToMap(Present(fields)), known)
  {
    PresentReadsBack(fields);
    forall k | k in ToMap(Present(fields)) ensures k in known {
      var i :| 0 <= i < |fields| && fields[i].0 == k;
      assert Known(fields[i], known);
    }
  }

  lemma LooseMapForm<T(!new)>(m: map<string, T>, tree: T -> Raw, form: Form<T>)
    requires forall k :: k in m ==> form(tree(m[k]), m[k])
    ensures Mapped(MapTree(m, tree), m, form)
  {
    MapReadsBack(m, tree);
  }

  lemma {:induction false} TwoFields(fs: seq<(string, Option<Raw>)>, a: string, b: string)
    requires |fs| == 2 && fs[0].0 == a && fs[1].0 == b && a != b
    ensures Holds(ToMap(Present(fs)), a, fs[0].1) && Holds(ToMap(Present(fs)), b, fs[1].1)
    ensures OnlyFields(ToMap(Present(fs)), {a, b})
  {
    StructLookups(fs);
    assert Holds(ToMap(Present(fs)), fs[0].0, fs[0].1) && Holds(ToMap(Present(fs)), fs[1].0, fs[1].1);
    assert Known(fs[0], {a, b}) && Known(fs[1], {a, b});
    OnlyThese(fs, {a, b});
  }

  lemma {:induction false} ThreeFields(fs: seq<(string, Option<Raw>)>, a: string, b: string, c: string)
    requires |fs| == 3 && fs[0].0 == a && fs[1].0 == b && fs[2].0 == c && a != b && b != c && a != c
    ensures Holds(ToMap(Present(fs)), a, fs[0].1) && Holds(ToMap(Present(fs)), b, fs[1].1) && Holds(ToMap(Present(fs)), c, fs[2].1)
    ensures OnlyFields(ToMap(Present(fs)), {a, b, c})
  {
    StructLookups(fs);
    var f := ToMap(Present(fs));
    assert Holds(f, fs[0].0, fs[0].1) && Holds(f, fs[1].0, fs[1].1) && Holds(f, fs[2].0, fs[2].1);
    assert Known(fs[0], {a, b, c}) && Known(fs[1], {a, b, c}) && Known(fs[2], {a, b, c});
    OnlyThese(fs, {a, b, c});
  }

  lemma {:induction false} LooseHashesForm(h: Hashes)
    ensures FormHashes(LooseHashes(h), h)
  {
    TwoFields(LooseHashesFields(h), "sha256", "md5");
  }

  lemma {:induction false} LooseSourceForm(url: string)
    ensures FormSource(Mapping(Present(LooseSourceFields(url))), url)
  {
    TwoFields(LooseSourceFields(url), "url", "type");
  }

  lemma {:induction false} LooseChannelForm(c: Channel)
    ensures FormChannel(LooseChannel(c), c)
  {
    if c.usedEnvVars != [] { TwoFields(LooseChannelFields(c), "used_env_vars", "url"); }
  }

  lemma {:induction false} LooseGitForm(g: GitMetadata)
    ensures FormGit(Mapping(Present(LooseGitFields(g))), g)
  {
    ThreeFields(LooseGitFields(g), "git_sha", "git_user_email", "git_user_name");
  }

  lemma LooseTimeForm(s: string)
    ensures FormTime(Mapping([Field("created_at", Loose(s))]), s)
  {
    var fields := [Field("created_at", Loose(s))];
    assert fields[1..] == [];
    assert ToMap(fields) == map["created_at" := Loose(s)];
  }

  // ---------------------------------------------------------------- Packages

  ghost predicate IsLoosePackage(fs: seq<(string, Option<Raw>)>, p: Package) {
    && |fs| == 11
    && fs[0] == ("version", LooseText(p.version)) && fs[1] == ("url", LooseText(p.url))
    && fs[2] == ("source", LooseSource(p.source)) && fs[3] == ("platform", LooseText(p.platform))
    && fs[4].0 == "optional" && fs[4].1.Some? && FormBool(fs[4].1.value, p.optional)
    && fs[5] == ("name", LooseText(p.name)) && fs[6] == ("manager", LooseText(ManagerName(p.manager)))
    && fs[7] == ("hash", Some(LooseHashes(p.hash)))
    && fs[8] == ("dependencies", if p.dependencies == map[] then None else Some(MapTree(p.dependencies, Loose)))
    && fs[9] == ("category", if p.category == "main" then None else LooseText(p.category))
    && fs[10] == ("build", LooseOption(p.build))
  }

  lemma {:induction false} LoosePackageIs(p: Package)
    ensures IsLoosePackage(LoosePackageFields(p), p)
  {
  }

  /** The initials of two neighbouring names descend. */
  ghost predicate InitialsDescend(fs: seq<(string, Option<Raw>)>, i: nat) {
    i + 1 < |fs| && fs[i].0 != [] && fs[i + 1].0 != [] && fs[i + 1].0[0] < fs[i].0[0]
  }

  lemma {:induction false} DescendingInitials(fs: seq<(string, Option<Raw>)>, i: nat, j: nat)
    requires i < j < |fs| && forall k :: 0 <= k < |fs| - 1 ==> InitialsDescend(fs, k)
    ensures fs[i].0 != [] && fs[j].0 != [] && fs[j].0[0] < fs[i].0[0]
    decreases j - i
  {
    assert InitialsDescend(fs, i);
    if i + 1 < j { DescendingInitials(fs, i + 1, j); }
  }

  lemma TenDescend(fs: seq<(string, Option<Raw>)>)
    requires |fs| == 11
    requires InitialsDescend(fs, 0) && InitialsDescend(fs, 1) && InitialsDescend(fs, 2) && InitialsDescend(fs, 3)
    requires InitialsDescend(fs, 4) && InitialsDescend(fs, 5) && InitialsDescend(fs, 6) && InitialsDescend(fs, 7)
    requires InitialsDescend(fs, 8) && InitialsDescend(fs, 9)
    ensures forall k :: 0 <= k < |fs| - 1 ==> InitialsDescend(fs, k)
  {
  }

  lemma {:induction false} LoosePackageDistinct(fs: seq<(string, Option<Raw>)>, p: Package)
    requires IsLoosePackage(fs, p)
    ensures DistinctNames(fs)
  {
    assert InitialsDescend(fs, 0) && InitialsDescend(fs, 1) && InitialsDescend(fs, 2) && InitialsDescend(fs, 3);
    assert InitialsDescend(fs, 4) && InitialsDescend(fs, 5) && InitialsDescend(fs, 6) && InitialsDescend(fs, 7);
    assert InitialsDescend(fs, 8) && InitialsDescend(fs, 9);
    TenDescend(fs);
    forall i, j | 0 <= i < j < |fs| ensures fs[i].0 != fs[j].0 { DescendingInitials(fs, i, j); }
  }

  lemma {:induction false} LoosePackageLookups(fs: seq<(string, Option<Raw>)>, p: Package, f: Fields)
    requires IsLoosePackage(fs, p) && forall i :: 0 <= i < |fs| ==> Holds(f, fs[i].0, fs[i].1)
    ensures Holds(f, "version", LooseText(p.version)) && Holds(f, "url", LooseText(p.url))
    ensures Holds(f, "source", LooseSource(p.source)) && Holds(f, "platform", LooseText(p.platform))
    ensures "optional" in f && FormBool(f["optional"], p.optional)
    ensures Holds(f, "name", LooseText(p.name)) && Holds(f, "manager", LooseText(ManagerName(p.manager)))
    ensures Holds(f, "hash", Some(LooseHashes(p.hash)))
    ensures Holds(f, "dependencies", if p.dependencies == map[] then None else Some(MapTree(p.dependencies, Loose)))
    ensures Holds(f, "category", if p.category == "main" then None else LooseText(p.category))
    ensures Holds(f, "build", LooseOption(p.build))
  {
    assert Holds(f, fs[0].0, fs[0].1) && Holds(f, fs[1].0, fs[1].1) && Holds(f, fs[2].0, fs[2].1);
    assert Holds(f, fs[3].0, fs[3].1) && Holds(f, fs[4].0, fs[4].1) && Holds(f, fs[5].0, fs[5].1);
    assert Holds(f, fs[6].0, fs[6].1) && Holds(f, fs[7].0, fs[7].1) && Holds(f, fs[8].0, fs[8].1);
    assert Holds(f, fs[9].0, fs[9].1) && Holds(f, fs[10].0, fs[10].1);
  }

  lemma {:induction false} LooseIdentityForm(fs: seq<(string, Option<Raw>)>, p: Package, f: Fields)
    requires IsLoosePackage(fs, p) && forall i :: 0 <= i < |fs| ==> Holds(f, fs[i].0, fs[i].1)
    ensures FormIdentity(f, p)
  {
    LoosePackageLookups(fs, p, f);
  }

  lemma {:induction false} LooseArtifactForm(fs: seq<(string, Option<Raw>)>, p: Package, f: Fields)
    requires IsLoosePackage(fs, p) && forall i :: 0 <= i < |fs| ==> Holds(f, fs[i].0, fs[i].1)
    ensures FormArtifact(f, p)
  {
    LoosePackageLookups(fs, p, f);
    ArtifactForm(p, f);
  }

  lemma {:induction false} ArtifactForm(p: Package, f: Fields)
    requires Holds(f, "url", LooseText(p.url)) && Holds(f, "hash", Some(LooseHashes(p.hash)))
    requires Holds(f, "source", LooseSource(p.source))
    requires Holds(f, "dependencies", if p.dependencies == map[] then None else Some(MapTree(p.dependencies, Loose)))
    ensures FormArtifact(f, p)
  {
    LooseHashesForm(p.hash);
    LooseMapForm(p.dependencies, Loose, Spells);
    if p.source.Some? { LooseSourceForm(p.source.value); }
  }

  lemma {:induction false} LooseInstallForm(fs: seq<(string, Option<Raw>)>, p: Package, f: Fields)
    requires IsLoosePackage(fs, p) && forall i :: 0 <= i < |fs| ==> Holds(f, fs[i].0, fs[i].1)
    ensures FormInstall(f, p)
  {
    LoosePackageLookups(fs, p, f);
  }

  lemma {:induction false} LoosePackageForm(p: Package)
    ensures FormPackage(LoosePackage(p), p)
  {
    var fs := LoosePackageFields(p);
    LoosePackageIs(p);
    LoosePackageDistinct(fs, p);
    StructLookups(fs);
    LooseIdentityForm(fs, p, ToMap(Present(fs)));
    LooseArtifactForm(fs, p, ToMap(Present(fs)));
    LooseInstallForm(fs, p, ToMap(Present(fs)));
    LoosePackageKnown(fs, p);
    OnlyThese(fs, PACKAGE_NAMES);
  }

  lemma {:induction false} LoosePackageKnown(fs: seq<(string, Option<Raw>)>, p: Package)
    requires IsLoosePackage(fs, p)
    ensures forall i :: 0 <= i < |fs| ==> Known(fs[i], PACKAGE_NAMES)
  {
    ElevenKnown(fs, PACKAGE_NAMES);
  }

  // ---------------------------------------------------------------- Metadata and the whole lock

  ghost predicate IsLooseMetadata(fs: seq<(string, Option<Raw>)>, m: Metadata) {
    && |fs| == 8
    && fs[0] == ("custom_metadata", if m.custom.Some? then Some(MapTree(m.custom.value, Loose)) else Some(Null))
    && fs[1] == ("inputs_metadata", if m.inputs.Some? then Some(MapTree(m.inputs.value, LooseHashes)) else None)
    && fs[2] == ("git_metadata", LooseGit(m.git))
    && fs[3] == ("time_metadata",
                 if m.createdAt.Some? then Some(Mapping([Field("created_at", Loose(m.createdAt.value))])) else None)
    && fs[4] == ("sources", Some(LooseStrings(m.sources))) && fs[5] == ("platforms", Some(LooseStrings(m.platforms)))
    && fs[6].0 == "channels" && fs[6].1.Some? && FormChannels(fs[6].1.value, m.channels)
    && fs[7] == ("content_hash", Some(MapTree(m.contentHash, Loose)))
  }

  lemma {:induction false} LooseMetadataIs(m: Metadata)
    ensures IsLooseMetadata(LooseMetadataFields(m), m)
  {
    forall i | 0 <= i < |m.channels| { LooseChannelForm(m.channels[i]); }
  }

  lemma {:induction false} LooseMetadataDistinct(fs: seq<(string, Option<Raw>)>, m: Metadata)
    requires IsLooseMetadata(fs, m)
    ensures DistinctNames(fs)
  {
  }

  lemma {:induction false} LooseMetadataKnown(fs: seq<(string, Option<Raw>)>, m: Metadata)
    requires IsLooseMetadata(fs, m)
    ensures forall i :: 0 <= i < |fs| ==> Known(fs[i], METADATA_NAMES)
  {
    assert Known(fs[0], METADATA_NAMES) && Known(fs[1], METADATA_NAMES) && Known(fs[2], METADATA_NAMES);
    assert Known(fs[3], METADATA_NAMES) && Known(fs[4], METADATA_NAMES) && Known(fs[5], METADATA_NAMES);
    assert Known(fs[6], METADATA_NAMES) && Known(fs[7], METADATA_NAMES);
  }

  lemma {:induction false} LooseDeclaredForm(fs: seq<(string, Option<Raw>)>, m: Metadata, f: Fields)
    requires IsLooseMetadata(fs, m) && forall i :: 0 <= i < |fs| ==> Holds(f, fs[i].0, fs[i].1)
    ensures FormDeclared(f, m)
  {
    assert Holds(f, fs[4].0, fs[4].1) && Holds(f, fs[5].0, fs[5].1) && Holds(f, fs[6].0, fs[6].1) && Holds(f, fs[7].0, fs[7].1);
    LooseMapForm(m.contentHash, Loose, Spells);
  }

  lemma {:induction false} LooseProvenanceForm(fs: seq<(string, Option<Raw>)>, m: Metadata, f: Fields)
    requires IsLooseMetadata(fs, m) && forall i :: 0 <= i < |fs| ==> Holds(f, fs[i].0, fs[i].1)
    ensures FormProvenance(f, m)
  {
    assert Holds(f, fs[0].0, fs[0].1) && Holds(f, fs[1].0, fs[1].1) && Holds(f, fs[2].0, fs[2].1) && Holds(f, fs[3].0, fs[3].1);
    if m.createdAt.Some? { LooseTimeForm(m.createdAt.value); }
    if m.git.Some? { LooseGitForm(m.git.value); }
    if m.inputs.Some? {
      forall k | k in m.inputs.value { LooseHashesForm(m.inputs.value[k]); }
      LooseMapForm(m.inputs.value, LooseHashes, FormHashes);
    }
    if m.custom.Some? { LooseMapForm(m.custom.value, Loose, Spells); }
  }

  lemma {:induction false} LooseMetadataForm(m: Metadata)
    ensures FormMetadata(Mapping(Present(LooseMetadataFields(m))), m)
  {
    var fs := LooseMetadataFields(m);
    LooseMetadataIs(m);
    LooseMetadataDistinct(fs, m);
    StructLookups(fs);
    LooseDeclaredForm(fs, m, ToMap(Present(fs)));
    LooseProvenanceForm(fs, m, ToMap(Present(fs)));
    LooseMetadataKnown(fs, m);
    OnlyThese(fs, METADATA_NAMES);
  }

  lemma {:induction false} ContentsForm(fs: seq<(string, Option<Raw>)>, l: LockFile)
    requires |fs| == 2 && fs[0].0 == "package" && fs[1].0 == "metadata" && fs[0].1.Some? && fs[1].1.Some?
    requires FormPackages(fs[0].1.value, l.package) && FormMetadata(fs[1].1.value, l.metadata)
    ensures FormLock(Mapping(Present(fs)), l)
  {
    TwoFields(fs, "package", "metadata");
  }

  lemma {:induction false} LooseLockForm(l: LockFile)
    ensures FormLock(LooseLock(l), l)
  {
    LooseMetadataForm(l.metadata);
    LoosePackagesForm(l.package, LooseLockFields(l)[0].1.value);
    ContentsForm(LooseLockFields(l), l);
  }

  lemma LoosePackagesForm(ps: seq<Package>, n: Raw)
    requires n == Sequence(seq(|ps|, i requires 0 <= i < |ps| => LoosePackage(ps[i])))
    ensures FormPackages(n, ps)
  {
    forall i | 0 <= i < |ps| { LoosePackageForm(ps[i]); }
  }

  // ---------------------------------------------------------------- No repeated keys

  lemma {:induction false} LoosePackageNoDuplicates(p: Package)
    ensures NoDuplicates(LoosePackage(p))
  {
    var fs := LoosePackageFields(p);
    LoosePackageIs(p);
    LoosePackageDistinct(fs, p);
    MapTreeNoDuplicates(p.dependencies, Loose);
    PresentNoDuplicates(LooseHashesFields(p.hash));
    if p.source.Some? { PresentNoDuplicates(LooseSourceFields(p.source.value)); }
    LoosePackageValues(fs, p);
    PresentNoDuplicates(fs);
  }

  lemma {:induction false} LoosePackageValues(fs: seq<(string, Option<Raw>)>, p: Package)
    requires IsLoosePackage(fs, p)
    requires NoDuplicates(MapTree(p.dependencies, Loose)) && NoDuplicates(LooseHashes(p.hash))
    requires p.source.Some? ==> NoDuplicates(LooseSource(p.source).value)
    ensures forall i :: 0 <= i < |fs| ==> ValueNoDuplicates(fs[i])
  {
    ElevenValues(fs);
  }

  lemma LooseChannelNoDuplicates(c: Channel)
    ensures NoDuplicates(LooseChannel(c))
  {
    if c.usedEnvVars != [] {
      var fs := LooseChannelFields(c);
      assert ValueNoDuplicates(fs[0]) && ValueNoDuplicates(fs[1]);
      PresentNoDuplicates(fs);
    }
  }

  lemma {:induction false} LooseMetadataNoDuplicates(m: Metadata)
    ensures NoDuplicates(Mapping(Present(LooseMetadataFields(m))))
  {
    var fs := LooseMetadataFields(m);
    LooseMetadataIs(m);
    LooseMetadataDistinct(fs, m);
    LooseMetadataValues(fs, m);
    PresentNoDuplicates(fs);
  }

  lemma {:induction false} LooseMetadataValues(fs: seq<(string, Option<Raw>)>, m: Metadata)
    requires fs == LooseMetadataFields(m) && |fs| == 8
    ensures forall i :: 0 <= i < |fs| ==> ValueNoDuplicates(fs[i])
  {
    LooseProvenanceValues(fs, m);
    LooseDeclaredValues(fs, m);
  }

  lemma {:induction false} LooseProvenanceValues(fs: seq<(string, Option<Raw>)>, m: Metadata)
    requires fs == LooseMetadataFields(m) && |fs| == 8
    ensures ValueNoDuplicates(fs[0]) && ValueNoDuplicates(fs[1]) && ValueNoDuplicates(fs[2]) && ValueNoDuplicates(fs[3])
  {
    if m.custom.Some? { MapTreeNoDuplicates(m.custom.value, Loose); }
    if m.inputs.Some? { LooseInputsNoDuplicates(m.inputs.value); }
    if m.git.Some? { LooseGitNoDuplicates(m.git.value); }
  }

  lemma LooseInputsNoDuplicates(m: map<string, Hashes>)
    ensures NoDuplicates(MapTree(m, LooseHashes))
  {
    forall h | h in m.Values { PresentNoDuplicates(LooseHashesFields(h)); }
    MapTreeNoDuplicates(m, LooseHashes);
  }

  lemma LooseGitNoDuplicates(g: GitMetadata)
    ensures NoDuplicates(Mapping(Present(LooseGitFields(g))))
  {
    PresentNoDuplicates(LooseGitFields(g));
  }

  lemma {:induction false} LooseDeclaredValues(fs: seq<(string, Option<Raw>)>, m: Metadata)
    requires fs == LooseMetadataFields(m) && |fs| == 8
    ensures ValueNoDuplicates(fs[4]) && ValueNoDuplicates(fs[5]) && ValueNoDuplicates(fs[6]) && ValueNoDuplicates(fs[7])
  {
    forall i | 0 <= i < |m.channels| { LooseChannelNoDuplicates(m.channels[i]); }
    MapTreeNoDuplicates(m.contentHash, Loose);
  }

  lemma {:induction false} LooseLockNoDuplicates(l: LockFile)
    ensures NoDuplicates(LooseLock(l))
  {
    var fs := LooseLockFields(l);
    LooseMetadataNoDuplicates(l.metadata);
    forall i | 0 <= i < |l.package| { LoosePackageNoDuplicates(l.package[i]); }
    assert ValueNoDuplicates(fs[0]) && ValueNoDuplicates(fs[1]);
    PresentNoDuplicates(fs);
  }

  // ---------------------------------------------------------------- Reading what was written by hand

  /** A lock written with all liberties at once is read back as it is: no schema version, main
      and empty dependencies left out, bare channels, nulls for what is absent, nothing quoted,
      and the fields in another order. */
  lemma LooseReadsBack(l: LockFile)
    ensures Parse(LooseLock(l)) == Success(l)
  {
    LooseLockForm(l);
    LooseLockNoDuplicates(l);
    ParseIff(LooseLock(l), l);
  }

  /** Any document of the form of a canonical lock is read as the emitted one is, whichever of
      the liberties it takes and wherever. */
  lemma HandWrittenReadsAlike(l: LockFile, n: Raw)
    requires NoDuplicates(n) && FormLock(n, Canonical(l))
    ensures Parse(n) == Parse(LockTreeOf(l))
  {
    ParseIff(n, Canonical(l));
    RoundTrip(l);
  }
}
