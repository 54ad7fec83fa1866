/** The parser's table of fields still to be read, which shrinks as fields are asked for,
    and the struct readers over it (crates/rattler_conda_lock/src/parse.rs). Each is proved
    against the function of the same purpose in LockParser. */
module LockFieldTable {
  import opened Orders
  import opened LockModel
  import opened LockTree
  import P = LockParser
  import opened LockParser

  /** Visit the tree and stop at the first repeated key. */
  method IndexKeys(n: Raw) returns (duplicate: Option<string>)
    ensures duplicate == FirstDuplicate(n)
    ensures duplicate.None? <==> NoDuplicates(n)
    decreases n
  {
    DuplicateFound(n);
    match n {
      case Mapping(fields) =>
        var seen: set<string> := {};
        for i := 0 to |fields|
          invariant DuplicateInFields({}, fields) == DuplicateInFields(seen, fields[i..])
        {
          if fields[i].key in seen { return Some(fields[i].key); }
          var inner := IndexKeys(fields[i].value);
          if inner.Some? { return inner; }
          seen := seen + {fields[i].key};
          assert fields[i..][1..] == fields[i + 1..];
        }
        duplicate := None;
      case Sequence(items) =>
        for i := 0 to |items|
          invariant DuplicateInItems(items) == DuplicateInItems(items[i..])
        {
          var inner := IndexKeys(items[i]);
          if inner.Some? { return inner; }
          assert items[i..][1..] == items[i + 1..];
        }
        duplicate := None;
      case _ => duplicate := None;
    }
  }

  class FieldTable {
    ghost const all: Fields
    ghost var taken: set<string>
    var values: Fields

    /** What is left is every field not asked for yet. */
    ghost predicate Valid()
      reads this
    {
      values == all - taken
    }

    constructor (fields: Fields)
      ensures Valid() && all == fields && taken == {}
    {
      all, taken, values := fields, {}, fields;
    }

    method Required(name: string) returns (r: Result<Raw, ErrorKind>)
      requires Valid() && name !in taken
      modifies this
      ensures Valid() && taken == old(taken) + {name}
      ensures r == P.Required(all, name)
    {
      r := if name in values then Success(values[name]) else Failure(MissingField(name));
      values, taken := values - {name}, taken + {name};
    }

    method Optional(name: string) returns (r: Option<Raw>)
      requires Valid() && name !in taken
      modifies this
      ensures Valid() && taken == old(taken) + {name}
      ensures r == P.Optional(all, name)
    {
      r := if name in values && values[name] != Null then Some(values[name]) else None;
      values, taken := values - {name}, taken + {name};
    }

    /** Like an optional field, but an explicit null is kept. */
    method Remove(name: string) returns (r: Option<Raw>)
      requires Valid() && name !in taken
      modifies this
      ensures Valid() && taken == old(taken) + {name}
      ensures r == if name in all then Some(all[name]) else None
    {
      r := if name in values then Some(values[name]) else None;
      values, taken := values - {name}, taken + {name};
    }

    method StringField(name: string) returns (r: Result<string, ErrorKind>)
      requires Valid() && name !in taken
      modifies this
      ensures r.Success? ==> Valid() && taken == old(taken) + {name}
      ensures r == P.StringField(all, name)
    {
      var n :- Required(name);
      r := StringOf(n);
    }

    method OptionalString(name: string) returns (r: Result<Option<string>, ErrorKind>)
      requires Valid() && name !in taken
      modifies this
      ensures Valid() && taken == old(taken) + {name}
      ensures r == P.OptionalString(all, name)
    {
      var n := Optional(name);
      r := Maybe(n, StringOf);
    }

    method Finish() returns (r: Result<(), ErrorKind>)
      requires Valid()
      ensures r == P.Finish(all, taken)
    {
      if values == map[] { return Success(()); }
      LeftOver(values);
      return Failure(UnknownField(Keys(values)[0]));
    }
  }

  // ---------------------------------------------------------------- Structs

  method TakeHashes(n: Raw) returns (r: Result<Hashes, ErrorKind>)
    ensures r == ReadHashes(n)
  {
    var f :- FieldsOf(n);
    var fields := new FieldTable(f);
    var md5 :- fields.OptionalString("md5");
    var sha256 :- fields.OptionalString("sha256");
    assert fields.taken == {"md5", "sha256"};
    var _ :- fields.Finish();
    return Success(Hashes(md5, sha256));
  }

  method TakeSource(n: Raw) returns (r: Result<string, ErrorKind>)
    ensures r == ReadSource(n)
  {
    var f :- FieldsOf(n);
    var fields := new FieldTable(f);
    var found :- fields.StringField("type");
    if found != "url" { return Failure(UnsupportedSourceType(found)); }
    var url :- fields.StringField("url");
    assert fields.taken == {"type", "url"};
    var _ :- fields.Finish();
    return Success(url);
  }

  method TakeIdentity(fields: FieldTable) returns (r: Result<(string, string, Manager, string), ErrorKind>)
    requires fields.Valid() && fields.taken == {}
    modifies fields
    ensures r == ReadIdentity(fields.all)
    ensures r.Success? ==> fields.Valid() && fields.taken == IDENTITY_FIELDS
  {
    var name :- fields.StringField("name");
    var version :- fields.StringField("version");
    var managerName :- fields.StringField("manager");
    var manager :- ReadManager(managerName);
    var platform :- fields.StringField("platform");
    return Success((name, version, manager, platform));
  }

  method TakeArtifact(fields: FieldTable)
    returns (r: Result<(map<string, string>, string, Hashes, Option<string>), ErrorKind>)
    requires fields.Valid() && fields.taken !! ARTIFACT_FIELDS
    modifies fields
    ensures r == ReadArtifact(fields.all)
    ensures r.Success? ==> fields.Valid()
    ensures r.Success? ==> fields.taken == old(fields.taken) + ARTIFACT_FIELDS
  {
    var dependenciesNode := fields.Optional("dependencies");
    var dependencies :- Maybe(dependenciesNode, StringMap);
    var url :- fields.StringField("url");
    var hashNode :- fields.Required("hash");
    var hash :- TakeHashes(hashNode);
    var sourceNode := fields.Optional("source");
    var source: Option<string> := None;
    if sourceNode.Some? {
      var sourceUrl :- TakeSource(sourceNode.value);
      source := Some(sourceUrl);
    }
    return Success((if dependencies.Some? then dependencies.value else map[], url, hash, source));
  }

  method TakeInstall(fields: FieldTable) returns (r: Result<(Option<string>, string, bool), ErrorKind>)
    requires fields.Valid() && fields.taken !! INSTALL_FIELDS
    modifies fields
    ensures r == ReadInstall(fields.all)
    ensures r.Success? ==> fields.Valid() && fields.taken == old(fields.taken) + INSTALL_FIELDS
  {
    var build :- fields.OptionalString("build");
    var categoryNode := fields.Remove("category");
    var category := "main";
    if categoryNode.Some? { category :- StringOf(categoryNode.value); }
    var optionalNode :- fields.Required("optional");
    if !optionalNode.Bool? { return Failure(UnexpectedType(BooleanKind)); }
    return Success((build, category, optionalNode.truth));
  }

  method TakePackage(n: Raw) returns (r: Result<Package, ErrorKind>)
    ensures r == ReadPackage(n)
  {
    var f :- FieldsOf(n);
    var fields := new FieldTable(f);
    var what :- TakeIdentity(fields);
    var artifact :- TakeArtifact(fields);
    var install :- TakeInstall(fields);
    assert fields.taken == PACKAGE_FIELDS;
    var _ :- fields.Finish();
    return Success(Package(what.0, what.1, what.2, what.3, artifact.0, artifact.1, artifact.2, artifact.3,
                           install.0, install.1, install.2));
  }

  method TakePackages(items: seq<Raw>) returns (r: Result<seq<Package>, ErrorKind>)
    ensures r == Each(items, ReadPackage)
  {
    if items == [] { return Success([]); }
    var first :- TakePackage(items[0]);
    var rest :- TakePackages(items[1..]);
    return Success([first] + rest);
  }

  method TakeDeclared(fields: FieldTable)
    returns (r: Result<(map<string, string>, seq<Channel>, seq<string>, seq<string>), ErrorKind>)
    requires fields.Valid() && fields.taken !! DECLARED_FIELDS
    modifies fields
    ensures r == ReadDeclared(fields.all)
    ensures r.Success? ==> fields.Valid()
    ensures r.Success? ==> fields.taken == old(fields.taken) + DECLARED_FIELDS
  {
    var contentHashNode :- fields.Required("content_hash");
    var contentHash :- StringMap(contentHashNode);
    var channelsNode :- fields.Required("channels");
    var channelItems :- SequenceOf(channelsNode);
    var channels :- Each(channelItems, ReadChannel);
    var platformsNode :- fields.Required("platforms");
    var platforms :- Strings(platformsNode);
    var sourcesNode :- fields.Required("sources");
    var sources :- Strings(sourcesNode);
    return Success((contentHash, channels, platforms, sources));
  }

  method TakeProvenance(fields: FieldTable)
    returns (r: Result<(Option<string>, Option<GitMetadata>, Option<map<string, Hashes>>, Option<map<string, string>>), ErrorKind>)
    requires fields.Valid() && fields.taken !! PROVENANCE_FIELDS
    modifies fields
    ensures r == ReadProvenance(fields.all)
    ensures r.Success? ==> fields.Valid()
    ensures r.Success? ==> fields.taken == old(fields.taken) + PROVENANCE_FIELDS
  {
    var timeNode := fields.Optional("time_metadata");
    var createdAt :- Maybe(timeNode, ReadTime);
    var gitNode := fields.Optional("git_metadata");
    var git :- Maybe(gitNode, ReadGit);
    var inputsNode := fields.Optional("inputs_metadata");
    var inputs :- Maybe(inputsNode, ReadHashesMap);
    var customNode := fields.Optional("custom_metadata");
    var custom :- Maybe(customNode, StringMap);
    return Success((createdAt, git, inputs, custom));
  }

  method TakeMetadata(n: Raw) returns (r: Result<Metadata, ErrorKind>)
    ensures r == ReadMetadata(n)
  {
    var f :- FieldsOf(n);
    var fields := new FieldTable(f);
    var declared :- TakeDeclared(fields);
    var provenance :- TakeProvenance(fields);
    assert fields.taken == METADATA_FIELDS;
    var _ :- fields.Finish();
    return Success(Metadata(declared.0, declared.1, declared.2, declared.3,
                            provenance.0, provenance.1, provenance.2, provenance.3));
  }

  method TakeContents(fields: FieldTable) returns (r: Result<(Metadata, seq<Package>), ErrorKind>)
    requires fields.Valid() && fields.taken !! CONTENT_FIELDS
    modifies fields
    ensures r == ReadContents(fields.all)
    ensures r.Success? ==> fields.Valid() && fields.taken == old(fields.taken) + CONTENT_FIELDS
  {
    var metadataNode :- fields.Required("metadata");
    var metadata :- TakeMetadata(metadataNode);
    var packageNode :- fields.Required("package");
    var packageItems :- SequenceOf(packageNode);
    var package :- TakePackages(packageItems);
    return Success((metadata, package));
  }

  method TakeLock(n: Raw) returns (r: Result<LockFile, ErrorKind>)
    ensures r == ReadLock(n)
  {
    var f :- FieldsOf(n);
    var fields := new FieldTable(f);
    var version := fields.Remove("version");
    if version.Some? && !(version.value.Number? && version.value.number == "1" && version.value.spelling == "1") {
      return Failure(UnsupportedVersion);
    }
    var contents :- TakeContents(fields);
    assert fields.taken == LOCK_FIELDS;
    var _ :- fields.Finish();
    return Success(LockFile(contents.0, contents.1));
  }

  method ParseTree(n: Raw) returns (r: Result<LockFile, ErrorKind>)
    ensures r == Parse(n)
  {
    var duplicate := IndexKeys(n);
    if duplicate.Some? { return Failure(DuplicateKey(duplicate.value)); }
    r := TakeLock(n);
  }
}
