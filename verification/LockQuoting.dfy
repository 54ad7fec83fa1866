/** Quoting unquoted scalars. Wherever a text is expected, an unquoted number or boolean stands
    for its spelling, for every document, accepted or not
    (crates/rattler_conda_lock/src/parse.rs). */
module LockQuoting {
  import opened Orders
  import opened LockModel
  import opened LockTree
  import opened LockParser

  /** A number or boolean becomes the text it is spelled as. */
  function Quote(n: Raw): Raw {
    match n
    case Number(_, spelling) => String(spelling)
    case Bool(_, spelling) => String(spelling)
    case _ => n
  }

  function MapFields(fields: seq<Field>, g: (string, Raw) -> Raw): seq<Field> {
    if fields == [] then []
    else [Field(fields[0].key, g(fields[0].key, fields[0].value))] + MapFields(fields[1..], g)
  }

  function MapItems(items: seq<Raw>, g: Raw -> Raw): seq<Raw> {
    if items == [] then [] else [g(items[0])] + MapItems(items[1..], g)
  }

  function InFields(n: Raw, g: (string, Raw) -> Raw): Raw {
    if n.Mapping? then Mapping(MapFields(n.fields, g)) else n
  }

  function InItems(n: Raw, g: Raw -> Raw): Raw {
    if n.Sequence? then Sequence(MapItems(n.items, g)) else n
  }

  // ---------------------------------------------------------------- Where texts are expected

  function QuoteValue(key: string, n: Raw): Raw { Quote(n) }
  function QuoteStrings(n: Raw): Raw { InItems(n, Quote) }

  /** The values of a mapping: of hashes, sources, dependencies, time and git metadata. */
  function QuoteValues(n: Raw): Raw { InFields(n, QuoteValue) }
  function QuoteInner(key: string, n: Raw): Raw { QuoteValues(n) }
  function QuoteHashesMap(n: Raw): Raw { InFields(n, QuoteInner) }

  function QuoteChannelField(key: string, n: Raw): Raw {
    if key == "url" then Quote(n) else if key == "used_env_vars" then QuoteStrings(n) else n
  }

  /** A channel itself may be a bare text, but not a bare number. */
  function QuoteChannel(n: Raw): Raw { InFields(n, QuoteChannelField) }

  function QuotePackageField(key: string, n: Raw): Raw {
    if key == "optional" then n
    else if key == "dependencies" || key == "hash" || key == "source" then QuoteValues(n)
    else Quote(n)
  }

  function QuotePackage(n: Raw): Raw { InFields(n, QuotePackageField) }

  function QuoteMetadataField(key: string, n: Raw): Raw {
    if key == "channels" then InItems(n, QuoteChannel)
    else if key == "platforms" || key == "sources" then QuoteStrings(n)
    else if key == "inputs_metadata" then QuoteHashesMap(n)
    else if key == "content_hash" || key == "time_metadata" || key == "git_metadata" || key == "custom_metadata" then
      QuoteValues(n)
    else n
  }

  function QuoteMetadata(n: Raw): Raw { InFields(n, QuoteMetadataField) }

  function QuoteLockField(key: string, n: Raw): Raw {
    if key == "metadata" then QuoteMetadata(n) else if key == "package" then InItems(n, QuotePackage) else n
  }

  /** Every number and boolean in a place where a text is expected becomes that text. */
  function QuoteLock(n: Raw): Raw { InFields(n, QuoteLockField) }

  // ---------------------------------------------------------------- Fields and items

  lemma {:induction false} MappedFields(fields: seq<Field>, g: (string, Raw) -> Raw)
    ensures ToMap(MapFields(fields, g)) == map k | k in ToMap(fields) :: g(k, ToMap(fields)[k])
  {
    if fields != [] {
      MappedFields(fields[1..], g);
      var quoted := MapFields(fields, g);
      assert quoted[1..] == MapFields(fields[1..], g);
    }
  }

  /** Reading each item gives the same if reading any one item does. */
  lemma {:induction false} EachQuoted<T>(items: seq<Raw>, g: Raw -> Raw, read: Raw -> Result<T, ErrorKind>)
    requires forall n :: read(g(n)) == read(n)
    ensures Each(MapItems(items, g), read) == Each(items, read)
  {
    if items != [] {
      EachQuoted(items[1..], g, read);
      assert MapItems(items, g)[1..] == MapItems(items[1..], g);
    }
  }

  lemma {:induction false} EachValueQuoted<T>(keys: seq<string>, f: Fields, h: Fields, read: Raw -> Result<T, ErrorKind>)
    requires forall k :: k in keys ==> k in f && k in h && read(h[k]) == read(f[k])
    ensures EachValue(keys, h, read) == EachValue(keys, f, read)
  {
    if keys != [] {
      assert keys == [keys[0]] + keys[1..];
      EachValueQuoted(keys[1..], f, h, read);
    }
  }

  lemma SameKeys<T>(a: map<string, T>, b: map<string, T>)
    requires a.Keys == b.Keys
    ensures Keys(a) == Keys(b)
  {
    StringOrder();
    IncreasingUnique(StringLess, Keys(a), Keys(b));
  }

  lemma FinishQuoted(f: Fields, h: Fields, known: set<string>)
    requires f.Keys == h.Keys
    ensures Finish(h, known) == Finish(f, known)
  {
    assert (h - known).Keys == (f - known).Keys;
    SameKeys(f - known, h - known);
    assert h - known == map[] <==> (h - known).Keys == {};
    assert f - known == map[] <==> (f - known).Keys == {};
  }

  /** Looking a name up gives the quoted value, and null stays null. */
  ghost predicate FieldQuoted(f: Fields, h: Fields, name: string, g: (string, Raw) -> Raw) {
    && (name in f <==> name in h)
    && (name in f ==> h[name] == g(name, f[name]) && (h[name] == Null <==> f[name] == Null))
  }

  lemma FieldsQuoted(n: Raw, g: (string, Raw) -> Raw, name: string)
    requires n.Mapping? && forall v: Raw :: g(name, v) == Null <==> v == Null
    ensures FieldQuoted(ToMap(n.fields), ToMap(InFields(n, g).fields), name, g)
    ensures ToMap(InFields(n, g).fields).Keys == ToMap(n.fields).Keys
  {
    MappedFields(n.fields, g);
  }

  /** A text field reads the same. */
  lemma TextQuoted(n: Raw, g: (string, Raw) -> Raw, name: string)
    requires n.Mapping? && forall v :: g(name, v) == Quote(v)
    ensures StringField(ToMap(InFields(n, g).fields), name) == StringField(ToMap(n.fields), name)
    ensures OptionalString(ToMap(InFields(n, g).fields), name) == OptionalString(ToMap(n.fields), name)
    ensures ToMap(InFields(n, g).fields).Keys == ToMap(n.fields).Keys
  {
    FieldsQuoted(n, g, name);
  }

  lemma StringsQuoted(n: Raw)
    ensures Strings(QuoteStrings(n)) == Strings(n)
  {
    if n.Sequence? { EachQuoted(n.items, Quote, StringOf); }
  }

  lemma StringMapQuoted(n: Raw)
    ensures StringMap(QuoteValues(n)) == StringMap(n)
  {
    if n.Mapping? {
      MappedFields(n.fields, QuoteValue);
      var f, h := ToMap(n.fields), ToMap(QuoteValues(n).fields);
      SameKeys(f, h);
      EachValueQuoted(Keys(f), f, h, StringOf);
    }
  }

  lemma HashesQuoted(n: Raw)
    ensures ReadHashes(QuoteValues(n)) == ReadHashes(n)
  {
    if n.Mapping? {
      TextQuoted(n, QuoteValue, "md5");
      TextQuoted(n, QuoteValue, "sha256");
      FinishQuoted(ToMap(n.fields), ToMap(QuoteValues(n).fields), {"md5", "sha256"});
    }
  }

  lemma HashesMapQuoted(n: Raw)
    ensures ReadHashesMap(QuoteHashesMap(n)) == ReadHashesMap(n)
  {
    if n.Mapping? {
      MappedFields(n.fields, QuoteInner);
      var f, h := ToMap(n.fields), ToMap(QuoteHashesMap(n).fields);
      SameKeys(f, h);
      forall k | k in f { HashesQuoted(f[k]); }
      EachValueQuoted(Keys(f), f, h, ReadHashes);
    }
  }

  lemma ChannelQuoted(n: Raw)
    ensures ReadChannel(QuoteChannel(n)) == ReadChannel(n)
  {
    if n.Mapping? {
      FieldsQuoted(n, QuoteChannelField, "url");
      FieldsQuoted(n, QuoteChannelField, "used_env_vars");
      var f, h := ToMap(n.fields), ToMap(QuoteChannel(n).fields);
      if "used_env_vars" in f { StringsQuoted(f["used_env_vars"]); }
      FinishQuoted(f, h, {"url", "used_env_vars"});
    }
  }

  lemma TimeQuoted(n: Raw)
    ensures ReadTime(QuoteValues(n)) == ReadTime(n)
  {
    if n.Mapping? {
      TextQuoted(n, QuoteValue, "created_at");
      FinishQuoted(ToMap(n.fields), ToMap(QuoteValues(n).fields), {"created_at"});
    }
  }

  lemma GitQuoted(n: Raw)
    ensures ReadGit(QuoteValues(n)) == ReadGit(n)
  {
    if n.Mapping? {
      TextQuoted(n, QuoteValue, "git_user_name");
      TextQuoted(n, QuoteValue, "git_user_email");
      TextQuoted(n, QuoteValue, "git_sha");
      FinishQuoted(ToMap(n.fields), ToMap(QuoteValues(n).fields), {"git_user_name", "git_user_email", "git_sha"});
    }
  }

  lemma SourceQuoted(n: Raw)
    ensures ReadSource(QuoteValues(n)) == ReadSource(n)
  {
    if n.Mapping? {
      TextQuoted(n, QuoteValue, "type");
      TextQuoted(n, QuoteValue, "url");
      FinishQuoted(ToMap(n.fields), ToMap(QuoteValues(n).fields), {"type", "url"});
    }
  }

  // ---------------------------------------------------------------- Packages and metadata

  lemma IdentityQuoted(n: Raw)
    requires n.Mapping?
    ensures ReadIdentity(ToMap(QuotePackage(n).fields)) == ReadIdentity(ToMap(n.fields))
  {
    TextQuoted(n, QuotePackageField, "name");
    TextQuoted(n, QuotePackageField, "version");
    TextQuoted(n, QuotePackageField, "manager");
    TextQuoted(n, QuotePackageField, "platform");
  }

  /** An optional field that reads the same when quoted. */
  lemma OptionalQuoted<T>(n: Raw, g: (string, Raw) -> Raw, name: string, read: Raw -> Result<T, ErrorKind>)
    requires n.Mapping? && forall v: Raw :: (g(name, v) == Null <==> v == Null) && read(g(name, v)) == read(v)
    ensures
      Maybe(Optional(ToMap(InFields(n, g).fields), name), read) == Maybe(Optional(ToMap(n.fields), name), read)
  {
    FieldsQuoted(n, g, name);
  }

  lemma DependenciesQuoted(n: Raw)
    requires n.Mapping?
    ensures
      Maybe(Optional(ToMap(QuotePackage(n).fields), "dependencies"), StringMap) ==
        Maybe(Optional(ToMap(n.fields), "dependencies"), StringMap)
  {
    forall v { StringMapQuoted(v); }
    OptionalQuoted(n, QuotePackageField, "dependencies", StringMap);
  }

  lemma SourceFieldQuoted(n: Raw)
    requires n.Mapping?
    ensures
      Maybe(Optional(ToMap(QuotePackage(n).fields), "source"), ReadSource) ==
        Maybe(Optional(ToMap(n.fields), "source"), ReadSource)
  {
    forall v { SourceQuoted(v); }
    OptionalQuoted(n, QuotePackageField, "source", ReadSource);
  }

  /** A required field whose value reads the same when quoted. */
  lemma RequiredQuoted<T>(n: Raw, g: (string, Raw) -> Raw, name: string, read: Raw -> Result<T, ErrorKind>)
    requires n.Mapping? && forall v: Raw :: read(g(name, v)) == read(v)
    ensures
      var f, h := ToMap(n.fields), ToMap(InFields(n, g).fields);
      (name in h <==> name in f) && (name in f ==> read(h[name]) == read(f[name]))
  {
    MappedFields(n.fields, g);
  }

  lemma HashFieldQuoted(n: Raw)
    requires n.Mapping?
    ensures
      var f, h := ToMap(n.fields), ToMap(QuotePackage(n).fields);
      ("hash" in h <==> "hash" in f) && ("hash" in f ==> ReadHashes(h["hash"]) == ReadHashes(f["hash"]))
  {
    forall v { HashesQuoted(v); }
    RequiredQuoted(n, QuotePackageField, "hash", ReadHashes);
  }

  lemma ArtifactQuoted(n: Raw)
    requires n.Mapping?
    ensures ReadArtifact(ToMap(QuotePackage(n).fields)) == ReadArtifact(ToMap(n.fields))
  {
    DependenciesQuoted(n);
    TextQuoted(n, QuotePackageField, "url");
    HashFieldQuoted(n);
    SourceFieldQuoted(n);
  }

  lemma InstallQuoted(n: Raw)
    requires n.Mapping?
    ensures ReadInstall(ToMap(QuotePackage(n).fields)) == ReadInstall(ToMap(n.fields))
  {
    TextQuoted(n, QuotePackageField, "build");
    FieldsQuoted(n, QuotePackageField, "category");
    FieldsQuoted(n, QuotePackageField, "optional");
  }

  lemma PackageQuoted(n: Raw)
    ensures ReadPackage(QuotePackage(n)) == ReadPackage(n)
  {
    if n.Mapping? {
      IdentityQuoted(n);
      ArtifactQuoted(n);
      InstallQuoted(n);
      MappedFields(n.fields, QuotePackageField);
      FinishQuoted(ToMap(n.fields), ToMap(QuotePackage(n).fields), PACKAGE_FIELDS);
    }
  }

  lemma ContentHashQuoted(n: Raw)
    requires n.Mapping?
    ensures
      var f, h := ToMap(n.fields), ToMap(QuoteMetadata(n).fields);
      && ("content_hash" in h <==> "content_hash" in f)
      && ("content_hash" in f ==> StringMap(h["content_hash"]) == StringMap(f["content_hash"]))
  {
    forall v { StringMapQuoted(v); }
    RequiredQuoted(n, QuoteMetadataField, "content_hash", StringMap);
  }

  function ReadChannels(n: Raw): Result<seq<Channel>, ErrorKind> {
    var items :- SequenceOf(n);
    Each(items, ReadChannel)
  }

  lemma ChannelsQuoted(n: Raw)
    requires n.Mapping?
    ensures
      var f, h := ToMap(n.fields), ToMap(QuoteMetadata(n).fields);
      && ("channels" in h <==> "channels" in f)
      && ("channels" in f ==> ReadChannels(h["channels"]) == ReadChannels(f["channels"]))
  {
    forall v: Raw ensures ReadChannels(InItems(v, QuoteChannel)) == ReadChannels(v) {
      forall c { ChannelQuoted(c); }
      if v.Sequence? { EachQuoted(v.items, QuoteChannel, ReadChannel); }
    }
    RequiredQuoted(n, QuoteMetadataField, "channels", ReadChannels);
  }

  lemma ListsQuoted(n: Raw)
    requires n.Mapping?
    ensures
      var f, h := ToMap(n.fields), ToMap(QuoteMetadata(n).fields);
      && ("platforms" in h <==> "platforms" in f)
      && ("platforms" in f ==> Strings(h["platforms"]) == Strings(f["platforms"]))
      && ("sources" in h <==> "sources" in f)
      && ("sources" in f ==> Strings(h["sources"]) == Strings(f["sources"]))
  {
    forall v { StringsQuoted(v); }
    RequiredQuoted(n, QuoteMetadataField, "platforms", Strings);
    RequiredQuoted(n, QuoteMetadataField, "sources", Strings);
  }

  lemma DeclaredQuoted(n: Raw)
    requires n.Mapping?
    ensures ReadDeclared(ToMap(QuoteMetadata(n).fields)) == ReadDeclared(ToMap(n.fields))
  {
    ContentHashQuoted(n);
    ChannelsQuoted(n);
    ListsQuoted(n);
  }

  lemma TimeFieldQuoted(n: Raw)
    requires n.Mapping?
    ensures
      Maybe(Optional(ToMap(QuoteMetadata(n).fields), "time_metadata"), ReadTime) ==
        Maybe(Optional(ToMap(n.fields), "time_metadata"), ReadTime)
  {
    forall v { TimeQuoted(v); }
    OptionalQuoted(n, QuoteMetadataField, "time_metadata", ReadTime);
  }

  lemma GitFieldQuoted(n: Raw)
    requires n.Mapping?
    ensures
      Maybe(Optional(ToMap(QuoteMetadata(n).fields), "git_metadata"), ReadGit) ==
        Maybe(Optional(ToMap(n.fields), "git_metadata"), ReadGit)
  {
    forall v { GitQuoted(v); }
    OptionalQuoted(n, QuoteMetadataField, "git_metadata", ReadGit);
  }

  lemma InputsFieldQuoted(n: Raw)
    requires n.Mapping?
    ensures
      Maybe(Optional(ToMap(QuoteMetadata(n).fields), "inputs_metadata"), ReadHashesMap) ==
        Maybe(Optional(ToMap(n.fields), "inputs_metadata"), ReadHashesMap)
  {
    forall v { HashesMapQuoted(v); }
    OptionalQuoted(n, QuoteMetadataField, "inputs_metadata", ReadHashesMap);
  }

  lemma CustomFieldQuoted(n: Raw)
    requires n.Mapping?
    ensures
      Maybe(Optional(ToMap(QuoteMetadata(n).fields), "custom_metadata"), StringMap) ==
        Maybe(Optional(ToMap(n.fields), "custom_metadata"), StringMap)
  {
    forall v { StringMapQuoted(v); }
    OptionalQuoted(n, QuoteMetadataField, "custom_metadata", StringMap);
  }

  lemma ProvenanceQuoted(n: Raw)
    requires n.Mapping?
    ensures ReadProvenance(ToMap(QuoteMetadata(n).fields)) == ReadProvenance(ToMap(n.fields))
  {
    TimeFieldQuoted(n);
    GitFieldQuoted(n);
    InputsFieldQuoted(n);
    CustomFieldQuoted(n);
  }

  lemma MetadataQuoted(n: Raw)
    ensures ReadMetadata(QuoteMetadata(n)) == ReadMetadata(n)
  {
    if n.Mapping? {
      DeclaredQuoted(n);
      ProvenanceQuoted(n);
      MappedFields(n.fields, QuoteMetadataField);
      FinishQuoted(ToMap(n.fields), ToMap(QuoteMetadata(n).fields), METADATA_FIELDS);
    }
  }

  lemma LockQuoted(n: Raw)
    ensures ReadLock(QuoteLock(n)) == ReadLock(n)
  {
    if n.Mapping? {
      var f := ToMap(n.fields);
      FieldsQuoted(n, QuoteLockField, "version");
      FieldsQuoted(n, QuoteLockField, "metadata");
      FieldsQuoted(n, QuoteLockField, "package");
      if "metadata" in f { MetadataQuoted(f["metadata"]); }
      if "package" in f && f["package"].Sequence? {
        forall p { PackageQuoted(p); }
        EachQuoted(f["package"].items, QuotePackage, ReadPackage);
      }
      FinishQuoted(f, ToMap(QuoteLock(n).fields), LOCK_FIELDS);
    }
  }

  // ---------------------------------------------------------------- Repeated keys

  lemma {:induction false} FieldDuplicatesQuoted(seen: set<string>, fields: seq<Field>, g: (string, Raw) -> Raw)
    requires forall k, v :: FirstDuplicate(g(k, v)) == FirstDuplicate(v)
    ensures DuplicateInFields(seen, MapFields(fields, g)) == DuplicateInFields(seen, fields)
    decreases |fields|
  {
    if fields != [] {
      FieldDuplicatesQuoted(seen + {fields[0].key}, fields[1..], g);
      assert MapFields(fields, g)[1..] == MapFields(fields[1..], g);
    }
  }

  lemma {:induction false} ItemDuplicatesQuoted(items: seq<Raw>, g: Raw -> Raw)
    requires forall n :: FirstDuplicate(g(n)) == FirstDuplicate(n)
    ensures DuplicateInItems(MapItems(items, g)) == DuplicateInItems(items)
    decreases |items|
  {
    if items != [] {
      ItemDuplicatesQuoted(items[1..], g);
      assert MapItems(items, g)[1..] == MapItems(items[1..], g);
    }
  }

  lemma InFieldsDuplicates(g: (string, Raw) -> Raw)
    requires forall k, v :: FirstDuplicate(g(k, v)) == FirstDuplicate(v)
    ensures forall n :: FirstDuplicate(InFields(n, g)) == FirstDuplicate(n)
  {
    forall n ensures FirstDuplicate(InFields(n, g)) == FirstDuplicate(n) {
      if n.Mapping? { FieldDuplicatesQuoted({}, n.fields, g); }
    }
  }

  lemma InItemsDuplicates(g: Raw -> Raw)
    requires forall n :: FirstDuplicate(g(n)) == FirstDuplicate(n)
    ensures forall n :: FirstDuplicate(InItems(n, g)) == FirstDuplicate(n)
  {
    forall n ensures FirstDuplicate(InItems(n, g)) == FirstDuplicate(n) {
      if n.Sequence? { ItemDuplicatesQuoted(n.items, g); }
    }
  }

  lemma LockDuplicates(n: Raw)
    ensures FirstDuplicate(QuoteLock(n)) == FirstDuplicate(n)
  {
    InItemsDuplicates(Quote);
    InFieldsDuplicates(QuoteValue);
    InFieldsDuplicates(QuoteInner);
    InFieldsDuplicates(QuoteChannelField);
    InItemsDuplicates(QuoteChannel);
    InFieldsDuplicates(QuotePackageField);
    InItemsDuplicates(QuotePackage);
    InFieldsDuplicates(QuoteMetadataField);
    InFieldsDuplicates(QuoteLockField);
  }

  // ---------------------------------------------------------------- The law

  /** Quoting every unquoted scalar in a text position changes nothing: neither the lock that
      is read nor the error that is reported. */
  lemma QuotingChangesNothing(n: Raw)
    ensures Parse(QuoteLock(n)) == Parse(n)
  {
    LockDuplicates(n);
    LockQuoted(n);
  }

  /** So documents that differ only in which of their texts are quoted are read alike. */
  lemma QuotedAlikeReadAlike(a: Raw, b: Raw)
    requires QuoteLock(a) == QuoteLock(b)
    ensures Parse(a) == Parse(b)
  {
    QuotingChangesNothing(a);
    QuotingChangesNothing(b);
  }
}
