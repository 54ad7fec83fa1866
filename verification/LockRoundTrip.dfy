/** Reading back a written lock gives its canonical form
    (crates/rattler_conda_lock/src/serialize.rs and parse.rs). */
module LockRoundTrip {
  import opened Orders
  import opened LockModel
  import opened LockTree
  import opened LockParser

  // ---------------------------------------------------------------- Sequences and maps

  lemma {:induction false} EachReads<T>(items: seq<Raw>, read: Raw -> Result<T, ErrorKind>, values: seq<T>)
    requires |items| == |values| && forall i :: 0 <= i < |items| ==> read(items[i]) == Success(values[i])
    ensures Each(items, read) == Success(values)
  {
    if items != [] {
      assert forall i :: 0 <= i < |items[1..]| ==> items[1..][i] == items[i + 1] && values[1..][i] == values[i + 1];
      EachReads(items[1..], read, values[1..]);
      assert values == [values[0]] + values[1..];
    }
  }

  lemma {:induction false} EachValueReads<T>(keys: seq<string>, f: Fields, read: Raw -> Result<T, ErrorKind>, m: map<string, T>)
    requires forall k :: k in keys ==> k in f && k in m && read(f[k]) == Success(m[k])
    ensures EachValue(keys, f, read) == Success(map k | k in keys :: m[k])
  {
    if keys != [] {
      EachValueReads(keys[1..], f, read, m);
      assert keys == [keys[0]] + keys[1..];
      assert (map k | k in keys :: m[k]) == (map k | k in keys[1..] :: m[k])[keys[0] := m[keys[0]]];
    }
  }

  lemma StringsReadBack(s: seq<string>)
    ensures Strings(StringsTree(s)) == Success(s)
  {
    EachReads(StringsTree(s).items, StringOf, s);
  }

  lemma MapTreeReads<T, U>(m: map<string, T>, tree: T -> Raw, read: Raw -> Result<U, ErrorKind>, n: map<string, U>)
    requires n.Keys == m.Keys && forall k :: k in m ==> read(tree(m[k])) == Success(n[k])
    ensures
      var f := ToMap(MapTree(m, tree).fields);
      EachValue(Keys(f), f, read) == Success(n)
  {
    MapReadsBack(m, tree);
    var f := ToMap(MapTree(m, tree).fields);
    EachValueReads(Keys(f), f, read, n);
    AllKeys(Keys(f), n);
  }

  lemma AllKeys<U>(keys: seq<string>, n: map<string, U>)
    requires forall k :: k in keys <==> k in n
    ensures (map k | k in keys :: n[k]) == n
  {
  }

  // ---------------------------------------------------------------- Structs

  /** Looking a field up by name gives what was written under it. */
  ghost predicate Holds(f: Fields, name: string, value: Option<Raw>) {
    (name in f <==> value.Some?) && (value.Some? ==> f[name] == value.value)
  }

  ghost predicate Known(field: (string, Option<Raw>), known: set<string>) { field.0 in known }

  /** The fields of a written struct, and nothing left over. */
  lemma {:induction false} StructReadsBack(fields: seq<(string, Option<Raw>)>, known: set<string>)
    requires DistinctNames(fields) && forall i :: 0 <= i < |fields| ==> Known(fields[i], known)
    ensures FieldsOf(Mapping(Present(fields))) == Success(ToMap(Present(fields)))
    ensures forall i :: 0 <= i < |fields| ==> Holds(ToMap(Present(fields)), fields[i].0, fields[i].1)
    ensures Finish(ToMap(Present(fields)), known) == Success(())
  {
    PresentReadsBack(fields);
    var f := ToMap(Present(fields));
    forall k | k in f ensures k in known {
      var i :| 0 <= i < |fields| && fields[i].0 == k;
      assert Known(fields[i], known);
    }
    assert f - known == map[];
  }

  lemma HashesReadBack(h: Hashes)
    ensures ReadHashes(HashesTree(h)) == Success(CanonicalHashes(h))
  {
    var fs := HashesFields(h);
    assert fs[0].0 == "md5" && fs[1].0 == "sha256";
    StructReadsBack(fs, {"md5", "sha256"});
  }

  lemma SourceReadsBack(url: string)
    ensures ReadSource(Mapping(Present(SourceFields(url)))) == Success(url)
  {
    var fs := SourceFields(url);
    assert fs[0].0 == "type" && fs[1].0 == "url";
    StructReadsBack(fs, {"type", "url"});
  }

  lemma ChannelReadsBack(c: Channel)
    ensures ReadChannel(Mapping(Present(ChannelFields(c)))) == Success(c)
  {
    var fs := ChannelFields(c);
    assert fs[0].0 == "url" && fs[1].0 == "used_env_vars";
    StructReadsBack(fs, {"url", "used_env_vars"});
    StringsReadBack(c.usedEnvVars);
  }

  lemma TimeReadsBack(createdAt: string)
    ensures ReadTime(Mapping(Present(TimeFields(createdAt)))) == Success(createdAt)
  {
    var fs := TimeFields(createdAt);
    assert fs[0].0 == "created_at";
    StructReadsBack(fs, {"created_at"});
  }

  lemma GitReadsBack(g: GitMetadata)
    ensures ReadGit(Mapping(Present(GitFields(g)))) == Success(g)
  {
    var fs := GitFields(g);
    assert fs[0].0 == "git_user_name" && fs[1].0 == "git_user_email" && fs[2].0 == "git_sha";
    StructReadsBack(fs, {"git_user_name", "git_user_email", "git_sha"});
  }

  lemma {:induction false} StringMapReadsBack(m: map<string, string>)
    ensures StringMap(MapTree(m, StringTree)) == Success(m)
    ensures StringMap(MapTree(m, LowercaseTree)) == Success(map k | k in m :: Lowercase(m[k]))
  {
    MapTreeReads(m, StringTree, StringOf, m);
    MapTreeReads(m, LowercaseTree, StringOf, map k | k in m :: Lowercase(m[k]));
  }

  lemma HashesMapReadsBack(m: map<string, Hashes>)
    ensures ReadHashesMap(MapTree(m, HashesTree)) == Success(map k | k in m :: CanonicalHashes(m[k]))
  {
    forall k | k in m { HashesReadBack(m[k]); }
    MapTreeReads(m, HashesTree, ReadHashes, map k | k in m :: CanonicalHashes(m[k]));
  }

  /** The written fields of a package, one by one. */
  ghost predicate IsPackageFields(fs: seq<(string, Option<Raw>)>, p: Package) {
    |fs| == 11 && EarlyFieldsAre(fs, p) && LateFieldsAre(fs, p)
  }

  ghost predicate EarlyFieldsAre(fs: seq<(string, Option<Raw>)>, p: Package)
    requires |fs| == 11
  {
    && fs[0] == ("build", TextOption(p.build))
    && fs[1] == ("category", Text(p.category))
    && fs[2] == ("dependencies", Some(MapTree(p.dependencies, StringTree)))
    && fs[3] == ("hash", Some(HashesTree(p.hash)))
    && fs[4] == ("manager", Text(ManagerName(p.manager)))
    && fs[5] == ("name", Text(p.name))
  }

  ghost predicate LateFieldsAre(fs: seq<(string, Option<Raw>)>, p: Package)
    requires |fs| == 11
  {
    && fs[6] == ("optional", Some(BoolTree(p.optional)))
    && fs[7] == ("platform", Text(p.platform))
    && fs[8] == ("source", SourceTree(p.source))
    && fs[9] == ("url", Text(p.url))
    && fs[10] == ("version", Text(p.version))
  }

  lemma {:induction false} EarlyFieldsListed(p: Package)
    ensures |PackageFields(p)| == 11 && EarlyFieldsAre(PackageFields(p), p)
  {
  }

  lemma {:induction false} LateFieldsListed(p: Package)
    ensures |PackageFields(p)| == 11 && LateFieldsAre(PackageFields(p), p)
  {
  }

  lemma {:induction false} PackageFieldsAre(p: Package)
    ensures IsPackageFields(PackageFields(p), p) && DistinctNames(PackageFields(p))
  {
    var fs := PackageFields(p);
    EarlyFieldsListed(p);
    LateFieldsListed(p);
    PackageFieldsDistinct(fs, p);
  }

  /** The initials of two neighbouring names ascend. */
  ghost predicate InitialsAscend(fs: seq<(string, Option<Raw>)>, i: nat) {
    i + 1 < |fs| && fs[i].0 != [] && fs[i + 1].0 != [] && fs[i].0[0] < fs[i + 1].0[0]
  }

  lemma {:induction false} AscendingInitials(fs: seq<(string, Option<Raw>)>, i: nat, j: nat)
    requires i < j < |fs| && forall k :: 0 <= k < |fs| - 1 ==> InitialsAscend(fs, k)
    ensures fs[i].0 != [] && fs[j].0 != [] && fs[i].0[0] < fs[j].0[0]
    decreases j - i
  {
    assert InitialsAscend(fs, i);
    if i + 1 < j { AscendingInitials(fs, i + 1, j); }
  }

  lemma {:induction false} PackageInitials(fs: seq<(string, Option<Raw>)>, p: Package)
    requires IsPackageFields(fs, p)
    ensures forall k :: 0 <= k < |fs| - 1 ==> InitialsAscend(fs, k)
  {
    assert InitialsAscend(fs, 0) && InitialsAscend(fs, 1) && InitialsAscend(fs, 2) && InitialsAscend(fs, 3);
    assert InitialsAscend(fs, 4) && InitialsAscend(fs, 5) && InitialsAscend(fs, 6) && InitialsAscend(fs, 7);
    assert InitialsAscend(fs, 8) && InitialsAscend(fs, 9);
    TenAscend(fs);
  }

  lemma {:induction false} PackageFieldsDistinct(fs: seq<(string, Option<Raw>)>, p: Package)
    requires IsPackageFields(fs, p)
    ensures DistinctNames(fs)
  {
    PackageInitials(fs, p);
    forall i, j | 0 <= i < j < |fs| ensures fs[i].0 != fs[j].0 { AscendingInitials(fs, i, j); }
  }

  lemma TenAscend(fs: seq<(string, Option<Raw>)>)
    requires |fs| == 11
    requires InitialsAscend(fs, 0) && InitialsAscend(fs, 1) && InitialsAscend(fs, 2) && InitialsAscend(fs, 3)
    requires InitialsAscend(fs, 4) && InitialsAscend(fs, 5) && InitialsAscend(fs, 6) && InitialsAscend(fs, 7)
    requires InitialsAscend(fs, 8) && InitialsAscend(fs, 9)
    ensures forall k :: 0 <= k < |fs| - 1 ==> InitialsAscend(fs, k)
  {
  }

  lemma {:induction false} PackageNames(fs: seq<(string, Option<Raw>)>, p: Package)
    requires IsPackageFields(fs, p)
    ensures forall i :: 0 <= i < |fs| ==> Known(fs[i], PACKAGE_FIELDS)
  {
    ElevenKnown(fs, PACKAGE_FIELDS);
  }

  lemma ElevenKnown(fs: seq<(string, Option<Raw>)>, known: set<string>)
    requires |fs| == 11
    requires Known(fs[0], known) && Known(fs[1], known) && Known(fs[2], known) && Known(fs[3], known)
    requires Known(fs[4], known) && Known(fs[5], known) && Known(fs[6], known) && Known(fs[7], known)
    requires Known(fs[8], known) && Known(fs[9], known) && Known(fs[10], known)
    ensures forall i :: 0 <= i < |fs| ==> Known(fs[i], known)
  {
  }

  lemma {:induction false} PackageLookups(fs: seq<(string, Option<Raw>)>, p: Package, f: Fields)
    requires IsPackageFields(fs, p) && forall i :: 0 <= i < |fs| ==> Holds(f, fs[i].0, fs[i].1)
    ensures Holds(f, "build", TextOption(p.build)) && Holds(f, "category", Text(p.category))
    ensures Holds(f, "dependencies", Some(MapTree(p.dependencies, StringTree)))
    ensures Holds(f, "hash", Some(HashesTree(p.hash))) && Holds(f, "manager", Text(ManagerName(p.manager)))
    ensures Holds(f, "name", Text(p.name)) && Holds(f, "optional", Some(BoolTree(p.optional)))
    ensures Holds(f, "platform", Text(p.platform)) && Holds(f, "source", SourceTree(p.source))
    ensures Holds(f, "url", Text(p.url)) && Holds(f, "version", Text(p.version))
  {
    assert Holds(f, fs[0].0, fs[0].1) && Holds(f, fs[1].0, fs[1].1) && Holds(f, fs[2].0, fs[2].1);
    assert Holds(f, fs[3].0, fs[3].1) && Holds(f, fs[4].0, fs[4].1) && Holds(f, fs[5].0, fs[5].1);
    assert Holds(f, fs[6].0, fs[6].1) && Holds(f, fs[7].0, fs[7].1) && Holds(f, fs[8].0, fs[8].1);
    assert Holds(f, fs[9].0, fs[9].1) && Holds(f, fs[10].0, fs[10].1);
  }

  lemma {:induction false} IdentityReadsBack(p: Package, f: Fields)
    requires Holds(f, "name", Text(p.name)) && Holds(f, "version", Text(p.version))
    requires Holds(f, "manager", Text(ManagerName(p.manager))) && Holds(f, "platform", Text(p.platform))
    ensures ReadIdentity(f) == Success((p.name, p.version, p.manager, p.platform))
  {
  }

  lemma {:induction false} ArtifactReadsBack(p: Package, f: Fields)
    requires Holds(f, "dependencies", Some(MapTree(p.dependencies, StringTree)))
    requires Holds(f, "hash", Some(HashesTree(p.hash))) && Holds(f, "url", Text(p.url))
    requires Holds(f, "source", SourceTree(p.source))
    ensures ReadArtifact(f) == Success((p.dependencies, p.url, CanonicalHashes(p.hash), p.source))
  {
    StringMapReadsBack(p.dependencies);
    HashesReadBack(p.hash);
    if p.source.Some? { SourceReadsBack(p.source.value); }
  }

  lemma {:induction false} InstallReadsBack(p: Package, f: Fields)
    requires Holds(f, "build", TextOption(p.build)) && Holds(f, "category", Text(p.category))
    requires Holds(f, "optional", Some(BoolTree(p.optional)))
    ensures ReadInstall(f) == Success((p.build, p.category, p.optional))
  {
  }

  lemma {:induction false} PackagePartsReadBack(fs: seq<(string, Option<Raw>)>, p: Package, f: Fields)
    requires IsPackageFields(fs, p) && forall i :: 0 <= i < |fs| ==> Holds(f, fs[i].0, fs[i].1)
    ensures ReadIdentity(f) == Success((p.name, p.version, p.manager, p.platform))
    ensures ReadArtifact(f) == Success((p.dependencies, p.url, CanonicalHashes(p.hash), p.source))
    ensures ReadInstall(f) == Success((p.build, p.category, p.optional))
  {
    PackageLookups(fs, p, f);
    IdentityReadsBack(p, f);
    ArtifactReadsBack(p, f);
    InstallReadsBack(p, f);
  }

  lemma {:induction false} PackageStructReadsBack(fs: seq<(string, Option<Raw>)>, p: Package)
    requires IsPackageFields(fs, p) && DistinctNames(fs)
    ensures ReadPackage(Mapping(Present(fs))) == Success(CanonicalPackage(p))
  {
    PackageNames(fs, p);
    StructReadsBack(fs, PACKAGE_FIELDS);
    PackagePartsReadBack(fs, p, ToMap(Present(fs)));
  }

  lemma {:induction false} PackageReadsBack(p: Package)
    ensures ReadPackage(PackageTree(p)) == Success(CanonicalPackage(p))
  {
    PackageFieldsAre(p);
    PackageStructReadsBack(PackageFields(p), p);
  }

  /** The written fields of the metadata, one by one. */
  ghost predicate IsMetadataFields(fs: seq<(string, Option<Raw>)>, m: Metadata) {
    && |fs| == 8
    && fs[0] == ("content_hash", Some(MapTree(m.contentHash, LowercaseTree)))
    && fs[1] == ("channels", Some(ChannelsTree(m.channels)))
    && fs[2] == ("platforms", Some(StringsTree(Sort(StringLess, m.platforms))))
    && fs[3] == ("sources", Some(StringsTree(m.sources)))
    && fs[4] == ("time_metadata", TimeTree(m.createdAt))
    && fs[5] == ("git_metadata", GitTree(m.git))
    && fs[6] == ("inputs_metadata", InputsTree(m.inputs))
    && fs[7] == ("custom_metadata", CustomTree(m.custom))
  }

  lemma {:induction false} MetadataFieldsAre(m: Metadata)
    ensures IsMetadataFields(MetadataFields(m), m) && DistinctNames(MetadataFields(m))
  {
  }

  lemma {:induction false} MetadataNames(fs: seq<(string, Option<Raw>)>, m: Metadata)
    requires IsMetadataFields(fs, m)
    ensures forall i :: 0 <= i < |fs| ==> Known(fs[i], METADATA_FIELDS)
  {
    assert Known(fs[0], METADATA_FIELDS) && Known(fs[1], METADATA_FIELDS) && Known(fs[2], METADATA_FIELDS);
    assert Known(fs[3], METADATA_FIELDS) && Known(fs[4], METADATA_FIELDS) && Known(fs[5], METADATA_FIELDS);
    assert Known(fs[6], METADATA_FIELDS) && Known(fs[7], METADATA_FIELDS);
  }

  lemma {:induction false} MetadataLookups(fs: seq<(string, Option<Raw>)>, m: Metadata, f: Fields)
    requires IsMetadataFields(fs, m) && forall i :: 0 <= i < |fs| ==> Holds(f, fs[i].0, fs[i].1)
    ensures Holds(f, "content_hash", Some(MapTree(m.contentHash, LowercaseTree)))
    ensures Holds(f, "channels", Some(ChannelsTree(m.channels)))
    ensures Holds(f, "platforms", Some(StringsTree(Sort(StringLess, m.platforms))))
    ensures Holds(f, "sources", Some(StringsTree(m.sources)))
    ensures Holds(f, "time_metadata", TimeTree(m.createdAt)) && Holds(f, "git_metadata", GitTree(m.git))
    ensures Holds(f, "inputs_metadata", InputsTree(m.inputs)) && Holds(f, "custom_metadata", CustomTree(m.custom))
  {
    assert Holds(f, fs[0].0, fs[0].1) && Holds(f, fs[1].0, fs[1].1) && Holds(f, fs[2].0, fs[2].1);
    assert Holds(f, fs[3].0, fs[3].1) && Holds(f, fs[4].0, fs[4].1) && Holds(f, fs[5].0, fs[5].1);
    assert Holds(f, fs[6].0, fs[6].1) && Holds(f, fs[7].0, fs[7].1);
  }

  lemma {:induction false} DeclaredReadsBack(m: Metadata, f: Fields)
    requires Holds(f, "content_hash", Some(MapTree(m.contentHash, LowercaseTree)))
    requires Holds(f, "channels", Some(ChannelsTree(m.channels)))
    requires Holds(f, "platforms", Some(StringsTree(Sort(StringLess, m.platforms))))
    requires Holds(f, "sources", Some(StringsTree(m.sources)))
    ensures
      var c := CanonicalMetadata(m);
      ReadDeclared(f) == Success((c.contentHash, c.channels, c.platforms, c.sources))
  {
    StringMapReadsBack(m.contentHash);
    forall i | 0 <= i < |m.channels| { ChannelReadsBack(m.channels[i]); }
    EachReads(ChannelsTree(m.channels).items, ReadChannel, m.channels);
    StringsReadBack(Sort(StringLess, m.platforms));
    StringsReadBack(m.sources);
  }

  lemma {:induction false} ProvenanceReadsBack(m: Metadata, f: Fields)
    requires Holds(f, "time_metadata", TimeTree(m.createdAt)) && Holds(f, "git_metadata", GitTree(m.git))
    requires Holds(f, "inputs_metadata", InputsTree(m.inputs)) && Holds(f, "custom_metadata", CustomTree(m.custom))
    ensures ReadProvenance(f) == Success((m.createdAt, m.git, CanonicalMetadata(m).inputs, m.custom))
  {
    assert Maybe(Optional(f, "time_metadata"), ReadTime) == Success(m.createdAt) by {
      if m.createdAt.Some? { TimeReadsBack(m.createdAt.value); }
    }
    assert Maybe(Optional(f, "git_metadata"), ReadGit) == Success(m.git) by {
      if m.git.Some? { GitReadsBack(m.git.value); }
    }
    assert Maybe(Optional(f, "inputs_metadata"), ReadHashesMap) == Success(CanonicalMetadata(m).inputs) by {
      if m.inputs.Some? { HashesMapReadsBack(m.inputs.value); }
    }
    assert Maybe(Optional(f, "custom_metadata"), StringMap) == Success(m.custom) by {
      if m.custom.Some? { StringMapReadsBack(m.custom.value); }
    }
  }

  lemma {:induction false} MetadataReadsBack(m: Metadata)
    ensures ReadMetadata(Mapping(Present(MetadataFields(m)))) == Success(CanonicalMetadata(m))
  {
    var fs, c := MetadataFields(m), CanonicalMetadata(m);
    var f := ToMap(Present(fs));
    MetadataFieldsAre(m);
    MetadataNames(fs, m);
    StructReadsBack(fs, METADATA_FIELDS);
    MetadataLookups(fs, m, f);
    DeclaredReadsBack(m, f);
    ProvenanceReadsBack(m, f);
  }

  lemma {:induction false} PackagesReadBack(ps: seq<Package>)
    ensures Each(PackageListTree(ps).items, ReadPackage) == Success(CanonicalPackages(ps))
  {
    forall i | 0 <= i < |ps| { PackageReadsBack(ps[i]); }
    EachReads(PackageListTree(ps).items, ReadPackage, CanonicalPackages(ps));
  }

  lemma {:induction false} LockLookups(l: LockFile, f: Fields)
    requires f == ToMap(Present(LockFields(l)))
    ensures FieldsOf(LockTreeOf(l)) == Success(f) && Finish(f, LOCK_FIELDS) == Success(())
    ensures Holds(f, "version", Some(Number("1", "1")))
    ensures Holds(f, "metadata", Some(Mapping(Present(MetadataFields(l.metadata)))))
    ensures Holds(f, "package", Some(PackageListTree(Sort(PackageLess, l.package))))
  {
    var fs := LockFields(l);
    assert fs[0].0 == "version" && fs[1].0 == "metadata" && fs[2].0 == "package";
    StructReadsBack(fs, LOCK_FIELDS);
    assert Holds(f, fs[0].0, fs[0].1) && Holds(f, fs[1].0, fs[1].1) && Holds(f, fs[2].0, fs[2].1);
  }

  lemma {:induction false} LockReadsBack(l: LockFile)
    ensures ReadLock(LockTreeOf(l)) == Success(Canonical(l))
  {
    LockLookups(l, ToMap(Present(LockFields(l))));
    MetadataReadsBack(l.metadata);
    PackagesReadBack(Sort(PackageLess, l.package));
  }

  // ---------------------------------------------------------------- No repeated keys are written

  lemma {:induction false} PresentOccurs(fields: seq<(string, Option<Raw>)>, j: nat)
    requires j < |Present(fields)|
    ensures exists i :: 0 <= i < |fields| && fields[i] == (Present(fields)[j].key, Some(Present(fields)[j].value))
  {
    var rest := fields[1..];
    if fields[0].1.Some? && j == 0 {
      assert fields[0] == (Present(fields)[0].key, Some(Present(fields)[0].value));
    } else {
      var k := if fields[0].1.Some? then j - 1 else j;
      assert Present(fields)[j] == Present(rest)[k];
      PresentOccurs(rest, k);
      var i :| 0 <= i < |rest| && rest[i] == (Present(rest)[k].key, Some(Present(rest)[k].value));
      assert fields[i + 1] == rest[i];
    }
  }

  lemma {:induction false} PresentDistinct(fields: seq<(string, Option<Raw>)>)
    requires DistinctNames(fields)
    ensures forall i, j :: 0 <= i < j < |Present(fields)| ==> Present(fields)[i].key != Present(fields)[j].key
  {
    if fields != [] {
      var rest, ps := fields[1..], Present(fields);
      PresentDistinct(rest);
      if fields[0].1.Some? {
        forall j | 1 <= j < |ps| ensures ps[j].key != ps[0].key {
          assert ps[j] == Present(rest)[j - 1];
          PresentOccurs(rest, j - 1);
          var i :| 0 <= i < |rest| && rest[i] == (Present(rest)[j - 1].key, Some(Present(rest)[j - 1].value));
          assert fields[i + 1] == rest[i];
        }
      }
    }
  }

  lemma {:induction false} PresentNoDuplicates(fields: seq<(string, Option<Raw>)>)
    requires DistinctNames(fields)
    requires forall i :: 0 <= i < |fields| ==> ValueNoDuplicates(fields[i])
    ensures NoDuplicates(Mapping(Present(fields)))
  {
    PresentDistinct(fields);
    forall j | 0 <= j < |Present(fields)| ensures NoDuplicates(Present(fields)[j].value) {
      PresentOccurs(fields, j);
      var i :| 0 <= i < |fields| && fields[i] == (Present(fields)[j].key, Some(Present(fields)[j].value));
      assert ValueNoDuplicates(fields[i]);
    }
  }

  lemma MapTreeNoDuplicates<T>(m: map<string, T>, tree: T -> Raw)
    requires forall v :: v in m.Values ==> NoDuplicates(tree(v))
    ensures NoDuplicates(MapTree(m, tree))
  {
    StringOrder();
    var keys := Keys(m);
    forall i | 0 <= i < |keys| ensures m[keys[i]] in m.Values {
      assert keys[i] in keys;
    }
  }

  lemma {:induction false} HashesNoDuplicates(h: Hashes)
    ensures NoDuplicates(HashesTree(h))
  {
    PresentNoDuplicates(HashesFields(h));
  }

  lemma {:induction false} SourceNoDuplicates(source: Option<string>)
    ensures source.Some? ==> NoDuplicates(SourceTree(source).value)
  {
    if source.Some? { PresentNoDuplicates(SourceFields(source.value)); }
  }

  lemma {:induction false} PackageNoDuplicates(p: Package)
    ensures NoDuplicates(PackageTree(p))
  {
    MapTreeNoDuplicates(p.dependencies, StringTree);
    HashesNoDuplicates(p.hash);
    SourceNoDuplicates(p.source);
    PackageFieldsAre(p);
    PackageStructNoDuplicates(PackageFields(p), p);
  }

  lemma {:induction false} PackageStructNoDuplicates(fs: seq<(string, Option<Raw>)>, p: Package)
    requires IsPackageFields(fs, p) && DistinctNames(fs)
    requires NoDuplicates(MapTree(p.dependencies, StringTree)) && NoDuplicates(HashesTree(p.hash))
    requires p.source.Some? ==> NoDuplicates(SourceTree(p.source).value)
    ensures NoDuplicates(Mapping(Present(fs)))
  {
    PackageValuesNoDuplicates(fs, p);
    PresentNoDuplicates(fs);
  }

  ghost predicate ValueNoDuplicates(field: (string, Option<Raw>)) {
    field.1.Some? ==> NoDuplicates(field.1.value)
  }

  lemma {:induction false} PackageValuesNoDuplicates(fs: seq<(string, Option<Raw>)>, p: Package)
    requires IsPackageFields(fs, p)
    requires NoDuplicates(MapTree(p.dependencies, StringTree)) && NoDuplicates(HashesTree(p.hash))
    requires p.source.Some? ==> NoDuplicates(SourceTree(p.source).value)
    ensures forall i :: 0 <= i < |fs| ==> ValueNoDuplicates(fs[i])
  {
    ElevenValues(fs);
  }

  lemma ElevenValues(fs: seq<(string, Option<Raw>)>)
    requires |fs| == 11
    requires ValueNoDuplicates(fs[0]) && ValueNoDuplicates(fs[1]) && ValueNoDuplicates(fs[2])
    requires ValueNoDuplicates(fs[3]) && ValueNoDuplicates(fs[4]) && ValueNoDuplicates(fs[5])
    requires ValueNoDuplicates(fs[6]) && ValueNoDuplicates(fs[7]) && ValueNoDuplicates(fs[8])
    requires ValueNoDuplicates(fs[9]) && ValueNoDuplicates(fs[10])
    ensures forall i :: 0 <= i < |fs| ==> ValueNoDuplicates(fs[i])
  {
  }

  lemma StringsNoDuplicates(s: seq<string>)
    ensures NoDuplicates(StringsTree(s))
  {
  }

  lemma ChannelsNoDuplicates(cs: seq<Channel>)
    ensures NoDuplicates(ChannelsTree(cs))
  {
    forall i | 0 <= i < |cs| ensures NoDuplicates(ChannelsTree(cs).items[i]) {
      StringsNoDuplicates(cs[i].usedEnvVars);
      var fs := ChannelFields(cs[i]);
      assert ValueNoDuplicates(fs[0]) && ValueNoDuplicates(fs[1]);
      PresentNoDuplicates(fs);
    }
  }

  lemma InputsNoDuplicates(m: map<string, Hashes>)
    ensures NoDuplicates(MapTree(m, HashesTree))
  {
    forall h | h in m.Values ensures NoDuplicates(HashesTree(h)) { PresentNoDuplicates(HashesFields(h)); }
    MapTreeNoDuplicates(m, HashesTree);
  }

  lemma {:induction false} MetadataNoDuplicates(m: Metadata)
    ensures NoDuplicates(Mapping(Present(MetadataFields(m))))
  {
    MapTreeNoDuplicates(m.contentHash, LowercaseTree);
    ChannelsNoDuplicates(m.channels);
    if m.createdAt.Some? { PresentNoDuplicates(TimeFields(m.createdAt.value)); }
    if m.git.Some? { PresentNoDuplicates(GitFields(m.git.value)); }
    if m.inputs.Some? { InputsNoDuplicates(m.inputs.value); }
    if m.custom.Some? { MapTreeNoDuplicates(m.custom.value, StringTree); }
    MetadataFieldsAre(m);
    MetadataValuesNoDuplicates(MetadataFields(m), m);
    PresentNoDuplicates(MetadataFields(m));
  }

  lemma {:induction false} MetadataValuesNoDuplicates(fs: seq<(string, Option<Raw>)>, m: Metadata)
    requires IsMetadataFields(fs, m)
    requires NoDuplicates(MapTree(m.contentHash, LowercaseTree)) && NoDuplicates(ChannelsTree(m.channels))
    requires m.createdAt.Some? ==> NoDuplicates(TimeTree(m.createdAt).value)
    requires m.git.Some? ==> NoDuplicates(GitTree(m.git).value)
    requires m.inputs.Some? ==> NoDuplicates(InputsTree(m.inputs).value)
    requires m.custom.Some? ==> NoDuplicates(CustomTree(m.custom).value)
    ensures forall i :: 0 <= i < |fs| ==> ValueNoDuplicates(fs[i])
  {
    assert ValueNoDuplicates(fs[0]) && ValueNoDuplicates(fs[1]) && ValueNoDuplicates(fs[2]);
    assert ValueNoDuplicates(fs[3]) && ValueNoDuplicates(fs[4]) && ValueNoDuplicates(fs[5]);
    assert ValueNoDuplicates(fs[6]) && ValueNoDuplicates(fs[7]);
  }

  // ---------------------------------------------------------------- Round trip

  lemma {:induction false} PackageListNoDuplicates(ps: seq<Package>)
    ensures NoDuplicates(PackageListTree(ps))
  {
    forall i | 0 <= i < |ps| { PackageNoDuplicates(ps[i]); }
  }

  lemma {:induction false} LockNoDuplicates(l: LockFile)
    ensures NoDuplicates(LockTreeOf(l))
  {
    MetadataNoDuplicates(l.metadata);
    PackageListNoDuplicates(Sort(PackageLess, l.package));
    var fs := LockFields(l);
    assert ValueNoDuplicates(fs[0]) && ValueNoDuplicates(fs[1]) && ValueNoDuplicates(fs[2]);
    PresentNoDuplicates(fs);
  }

  /** Parsing what is written succeeds, and yields the canonical lock. */
  lemma {:induction false} RoundTrip(l: LockFile)
    ensures Parse(LockTreeOf(l)) == Success(Canonical(l))
  {
    LockNoDuplicates(l);
    DuplicateFound(LockTreeOf(l));
    LockReadsBack(l);
  }

  /** Two locks are written alike exactly when their canonical forms are equal. */
  lemma WrittenAlikeIff(a: LockFile, b: LockFile)
    ensures LockTreeOf(a) == LockTreeOf(b) <==> Canonical(a) == Canonical(b)
  {
    RoundTrip(a);
    RoundTrip(b);
    if Canonical(a) == Canonical(b) {
      SamePackageListTree(Sort(PackageLess, a.package), Sort(PackageLess, b.package));
      MetadataWritten(a.metadata, b.metadata);
    }
  }

  lemma HashesWritten(a: Hashes, b: Hashes)
    requires CanonicalHashes(a) == CanonicalHashes(b)
    ensures HashesTree(a) == HashesTree(b)
  {
  }

  lemma SamePackageTree(p: Package, q: Package)
    requires CanonicalPackage(p) == CanonicalPackage(q)
    ensures PackageTree(p) == PackageTree(q)
  {
    assert CanonicalPackage(p).hash == CanonicalHashes(p.hash) && CanonicalPackage(q).hash == CanonicalHashes(q.hash);
    HashesWritten(p.hash, q.hash);
    assert p == q.(hash := p.hash);
  }

  lemma SamePackageListTree(p: seq<Package>, q: seq<Package>)
    requires CanonicalPackages(p) == CanonicalPackages(q)
    ensures PackageListTree(p) == PackageListTree(q)
  {
    assert |CanonicalPackages(p)| == |p| && |CanonicalPackages(q)| == |q|;
    forall i | 0 <= i < |p| ensures PackageTree(p[i]) == PackageTree(q[i]) {
      assert CanonicalPackages(p)[i] == CanonicalPackage(p[i]) && CanonicalPackages(q)[i] == CanonicalPackage(q[i]);
      SamePackageTree(p[i], q[i]);
    }
  }

  lemma MapWritten<T>(m: map<string, T>, n: map<string, T>, tree: T -> Raw)
    requires m.Keys == n.Keys && forall k :: k in m ==> tree(m[k]) == tree(n[k])
    ensures MapTree(m, tree) == MapTree(n, tree)
  {
    var keys := Keys(m);
    StringOrder();
    IncreasingUnique(StringLess, keys, Keys(n));
    forall i | 0 <= i < |keys| ensures keys[i] in m { assert keys[i] in keys; }
  }

  lemma MetadataWritten(a: Metadata, b: Metadata)
    requires CanonicalMetadata(a) == CanonicalMetadata(b)
    ensures MetadataFields(a) == MetadataFields(b)
  {
    var c, d := CanonicalMetadata(a), CanonicalMetadata(b);
    assert a.contentHash.Keys == c.contentHash.Keys && b.contentHash.Keys == d.contentHash.Keys;
    forall k | k in a.contentHash ensures LowercaseTree(a.contentHash[k]) == LowercaseTree(b.contentHash[k]) {
      assert c.contentHash[k] == d.contentHash[k];
    }
    MapWritten(a.contentHash, b.contentHash, LowercaseTree);
    if a.inputs.Some? {
      var m, n := a.inputs.value, b.inputs.value;
      assert c.inputs.value.Keys == m.Keys && d.inputs.value.Keys == n.Keys;
      forall k | k in m ensures HashesTree(m[k]) == HashesTree(n[k]) {
        assert c.inputs.value[k] == d.inputs.value[k];
        HashesWritten(m[k], n[k]);
      }
      MapWritten(m, n, HashesTree);
    }
  }

  /** Writing what was read back from a lock of distinct identities gives the same document. */
  lemma {:induction false} RewritingIsStable(l: LockFile)
    requires DistinctIdentities(l.package)
    ensures Parse(LockTreeOf(l)).Success? && LockTreeOf(Parse(LockTreeOf(l)).value) == LockTreeOf(l)
  {
    RoundTrip(l);
    CanonicalIdempotent(l);
    WrittenAlikeIff(Canonical(l), l);
  }
}
