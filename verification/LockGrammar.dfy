/** Which documents the parser accepts, and as what: a grammar over value trees that does not
    mention the parser (crates/rattler_conda_lock/src/parse.rs). */
module LockGrammar {
  import opened Orders
  import opened LockModel
  import opened LockTree
  import opened LockParser

  // ---------------------------------------------------------------- Building blocks

  /** A scalar that is spelled s: text, or an unquoted number or boolean. */
  ghost predicate Spells(n: Raw, s: string) {
    match n
    case String(text) => text == s
    case Number(_, spelling) => spelling == s
    case Bool(_, spelling) => spelling == s
    case _ => false
  }

  type Form<!T> = (Raw, T) -> bool

  ghost predicate Listed<T(!new)>(n: Raw, values: seq<T>, form: Form<T>) {
    && n.Sequence? && |n.items| == |values|
    && forall i :: 0 <= i < |values| ==> form(n.items[i], values[i])
  }

  ghost predicate Mapped<T(!new)>(n: Raw, m: map<string, T>, form: Form<T>) {
    && n.Mapping? && ToMap(n.fields).Keys == m.Keys
    && forall k :: k in m ==> form(ToMap(n.fields)[k], m[k])
  }

  ghost predicate RequiredIs<T(!new)>(f: Fields, name: string, x: T, form: Form<T>) {
    name in f && form(f[name], x)
  }

  /** A field that is missing or null stands for no value. */
  ghost predicate OptionalIs<T(!new)>(f: Fields, name: string, o: Option<T>, form: Form<T>) {
    if name in f && f[name] != Null then o.Some? && form(f[name], o.value) else o == None
  }

  ghost predicate OnlyFields(f: Fields, known: set<string>) { forall k :: k in f ==> k in known }

  // ---------------------------------------------------------------- Structs

  ghost predicate FormHashes(n: Raw, h: Hashes) {
    && n.Mapping?
    && var f := ToMap(n.fields);
      && OptionalIs(f, "md5", h.md5, Spells) && OptionalIs(f, "sha256", h.sha256, Spells)
      && OnlyFields(f, {"md5", "sha256"})
  }

  /** A channel is an object, or a bare string when it uses no environment variables. */
  ghost predicate FormChannel(n: Raw, c: Channel) {
    if n.String? then c == Channel(n.text, [])
    else
      && n.Mapping?
      && var f := ToMap(n.fields);
        && RequiredIs(f, "url", c.url, Spells)
        && RequiredIs(f, "used_env_vars", c.usedEnvVars, FormStrings)
        && OnlyFields(f, {"url", "used_env_vars"})
  }

  ghost predicate FormStrings(n: Raw, s: seq<string>) { Listed(n, s, Spells) }
  ghost predicate FormStringMap(n: Raw, m: map<string, string>) { Mapped(n, m, Spells) }
  ghost predicate FormHashesMap(n: Raw, m: map<string, Hashes>) { Mapped(n, m, FormHashes) }
  ghost predicate FormChannels(n: Raw, cs: seq<Channel>) { Listed(n, cs, FormChannel) }
  ghost predicate FormPackages(n: Raw, ps: seq<Package>) { Listed(n, ps, FormPackage) }

  ghost predicate FormTime(n: Raw, createdAt: string) {
    && n.Mapping?
    && var f := ToMap(n.fields);
      RequiredIs(f, "created_at", createdAt, Spells) && OnlyFields(f, {"created_at"})
  }

  ghost predicate FormGit(n: Raw, g: GitMetadata) {
    && n.Mapping?
    && var f := ToMap(n.fields);
      && OptionalIs(f, "git_user_name", g.userName, Spells) && OptionalIs(f, "git_user_email", g.userEmail, Spells)
      && OptionalIs(f, "git_sha", g.sha, Spells)
      && OnlyFields(f, {"git_user_name", "git_user_email", "git_sha"})
  }

  ghost predicate FormSource(n: Raw, url: string) {
    && n.Mapping?
    && var f := ToMap(n.fields);
      RequiredIs(f, "type", "url", Spells) && RequiredIs(f, "url", url, Spells) && OnlyFields(f, {"type", "url"})
  }

  /** Conda or pip, by name. */
  ghost predicate FormManager(n: Raw, m: Manager) {
    match m
    case Conda => Spells(n, "conda")
    case Pip => Spells(n, "pip")
  }

  ghost predicate FormBool(n: Raw, b: bool) { n.Bool? && n.truth == b }

  const PACKAGE_NAMES := {"build", "category", "dependencies", "hash", "manager", "name",
                          "optional", "platform", "source", "url", "version"}

  /** The category defaults to main, dependencies to none. */
  ghost predicate FormPackage(n: Raw, p: Package) {
    && n.Mapping?
    && var f := ToMap(n.fields);
      && FormIdentity(f, p) && FormArtifact(f, p) && FormInstall(f, p)
      && OnlyFields(f, PACKAGE_NAMES)
  }

  ghost predicate FormIdentity(f: Fields, p: Package) {
    && RequiredIs(f, "name", p.name, Spells) && RequiredIs(f, "version", p.version, Spells)
    && RequiredIs(f, "manager", p.manager, FormManager) && RequiredIs(f, "platform", p.platform, Spells)
  }

  ghost predicate FormArtifact(f: Fields, p: Package) {
    && (if "dependencies" in f && f["dependencies"] != Null then FormStringMap(f["dependencies"], p.dependencies)
        else p.dependencies == map[])
    && RequiredIs(f, "url", p.url, Spells) && RequiredIs(f, "hash", p.hash, FormHashes)
    && OptionalIs(f, "source", p.source, FormSource)
  }

  ghost predicate FormInstall(f: Fields, p: Package) {
    && OptionalIs(f, "build", p.build, Spells)
    && (if "category" in f then Spells(f["category"], p.category) else p.category == "main")
    && RequiredIs(f, "optional", p.optional, FormBool)
  }

  const METADATA_NAMES := {"content_hash", "channels", "platforms", "sources", "time_metadata",
                           "git_metadata", "inputs_metadata", "custom_metadata"}

  ghost predicate FormMetadata(n: Raw, m: Metadata) {
    && n.Mapping?
    && var f := ToMap(n.fields);
      FormDeclared(f, m) && FormProvenance(f, m) && OnlyFields(f, METADATA_NAMES)
  }

  ghost predicate FormDeclared(f: Fields, m: Metadata) {
    && RequiredIs(f, "content_hash", m.contentHash, FormStringMap)
    && RequiredIs(f, "channels", m.channels, FormChannels)
    && RequiredIs(f, "platforms", m.platforms, FormStrings) && RequiredIs(f, "sources", m.sources, FormStrings)
  }

  ghost predicate FormProvenance(f: Fields, m: Metadata) {
    && OptionalIs(f, "time_metadata", m.createdAt, FormTime) && OptionalIs(f, "git_metadata", m.git, FormGit)
    && OptionalIs(f, "inputs_metadata", m.inputs, FormHashesMap)
    && OptionalIs(f, "custom_metadata", m.custom, FormStringMap)
  }

  /** The schema version may be left out; otherwise it is the plain number 1. */
  ghost predicate FormLock(n: Raw, l: LockFile) {
    && n.Mapping?
    && var f := ToMap(n.fields);
      && ("version" in f ==> f["version"] == Number("1", "1"))
      && RequiredIs(f, "metadata", l.metadata, FormMetadata)
      && RequiredIs(f, "package", l.package, FormPackages)
      && OnlyFields(f, {"version", "metadata", "package"})
  }

  // ---------------------------------------------------------------- What a mapping holds

  /** Without repeated keys a mapping holds exactly its entries. */
  lemma {:induction false} ToMapMeans(fields: seq<Field>)
    requires forall i, j :: 0 <= i < j < |fields| ==> fields[i].key != fields[j].key
    ensures forall i :: 0 <= i < |fields| ==>
      fields[i].key in ToMap(fields) && ToMap(fields)[fields[i].key] == fields[i].value
    ensures forall k :: k in ToMap(fields) ==> exists i :: 0 <= i < |fields| && fields[i].key == k
  {
    forall k { ToMapKeys(fields, k); }
    if fields != [] {
      var rest := fields[1..];
      ToMapMeans(rest);
      ToMapKeys(rest, fields[0].key);
      forall i | 0 <= i < |fields|
        ensures fields[i].key in ToMap(fields) && ToMap(fields)[fields[i].key] == fields[i].value
      {
        if i > 0 { assert rest[i - 1] == fields[i]; }
      }
    }
  }

  // ---------------------------------------------------------------- The readers accept the forms

  /** The reader gives x exactly for the documents of the form of x. */
  ghost predicate Reads<T(!new)>(read: Raw -> Result<T, ErrorKind>, form: Form<T>) {
    forall n, x {:trigger form(n, x)} :: read(n) == Success(x) <==> form(n, x)
  }

  lemma ReadsSpelling()
    ensures Reads(StringOf, Spells)
  {
  }

  lemma {:induction false} EachIff<T(!new)>(items: seq<Raw>, read: Raw -> Result<T, ErrorKind>, values: seq<T>)
    ensures Each(items, read) == Success(values) <==>
      |items| == |values| && forall i :: 0 <= i < |items| ==> read(items[i]) == Success(values[i])
  {
    if items != [] {
      var rest := items[1..];
      var tail := if values == [] then [] else values[1..];
      EachIff(rest, read, tail);
      if values != [] { assert values == [values[0]] + tail; }
      assert forall i :: 0 <= i < |rest| ==> rest[i] == items[i + 1];
      assert forall i :: 0 <= i < |tail| ==> tail[i] == values[i + 1];
      if |items| == |values| && forall i :: 0 <= i < |items| ==> read(items[i]) == Success(values[i]) {
        forall i | 0 <= i < |rest| ensures read(rest[i]) == Success(tail[i]) {
          assert read(items[i + 1]) == Success(values[i + 1]);
        }
      }
      if Each(items, read) == Success(values) {
        assert Each(rest, read) == Success(tail);
        forall i | 0 <= i < |items| ensures |items| == |values| && read(items[i]) == Success(values[i]) {
          if i > 0 { assert read(rest[i - 1]) == Success(tail[i - 1]); }
        }
      }
    }
  }

  lemma ListedIff<T(!new)>(n: Raw, values: seq<T>, read: Raw -> Result<T, ErrorKind>, form: Form<T>)
    requires Reads(read, form)
    ensures n.Sequence? && Each(n.items, read) == Success(values) <==> Listed(n, values, form)
  {
    if n.Sequence? { EachIff(n.items, read, values); }
  }

  lemma {:induction false} EachValueGives<T(!new)>(keys: seq<string>, f: Fields, read: Raw -> Result<T, ErrorKind>)
    requires Increasing(StringLess, keys) && forall k :: k in keys ==> k in f
    requires EachValue(keys, f, read).Success?
    ensures
      var m := EachValue(keys, f, read).value;
      (forall k :: k in m <==> k in keys) && forall k :: k in keys ==> read(f[k]) == Success(m[k])
  {
    if keys != [] {
      FirstNotRepeated(keys);
      EachValueGives(keys[1..], f, read);
      assert keys == [keys[0]] + keys[1..];
    }
  }

  lemma {:induction false} EachValueTakes<T(!new)>(keys: seq<string>, f: Fields, read: Raw -> Result<T, ErrorKind>)
    requires Increasing(StringLess, keys) && forall k :: k in keys ==> k in f && read(f[k]).Success?
    ensures EachValue(keys, f, read).Success?
  {
    if keys != [] {
      FirstNotRepeated(keys);
      assert keys == [keys[0]] + keys[1..];
      EachValueTakes(keys[1..], f, read);
    }
  }

  lemma {:induction false} EachValueIff<T(!new)>(keys: seq<string>, f: Fields, read: Raw -> Result<T, ErrorKind>, m: map<string, T>)
    requires Increasing(StringLess, keys) && forall k :: k in keys ==> k in f
    ensures EachValue(keys, f, read) == Success(m) <==>
      (forall k :: k in m <==> k in keys) && forall k :: k in m && k in f ==> read(f[k]) == Success(m[k])
  {
    if EachValue(keys, f, read).Success? { EachValueGives(keys, f, read); }
    if (forall k :: k in m <==> k in keys) && forall k :: k in m && k in f ==> read(f[k]) == Success(m[k]) {
      EachValueTakes(keys, f, read);
      EachValueGives(keys, f, read);
      assert EachValue(keys, f, read).value == m;
    }
  }

  lemma FirstNotRepeated(keys: seq<string>)
    requires Increasing(StringLess, keys) && keys != []
    ensures keys[0] !in keys[1..] && Increasing(StringLess, keys[1..])
  {
    StringOrder();
    forall i | 0 <= i < |keys[1..]| ensures keys[1..][i] != keys[0] {
      assert keys[1..][i] == keys[i + 1];
    }
  }

  lemma MappedIff<T(!new)>(n: Raw, m: map<string, T>, read: Raw -> Result<T, ErrorKind>, form: Form<T>)
    requires Reads(read, form)
    ensures n.Mapping? && EachValue(Keys(ToMap(n.fields)), ToMap(n.fields), read) == Success(m) <==> Mapped(n, m, form)
  {
    if n.Mapping? {
      var f := ToMap(n.fields);
      EachValueIff(Keys(f), f, read, m);
    }
  }

  lemma OptionalIff<T(!new)>(f: Fields, name: string, o: Option<T>, read: Raw -> Result<T, ErrorKind>, form: Form<T>)
    requires Reads(read, form)
    ensures Maybe(Optional(f, name), read) == Success(o) <==> OptionalIs(f, name, o, form)
  {
    if name in f && f[name] != Null {
      if o.Some? { assert form(f[name], o.value) <==> read(f[name]) == Success(o.value); }
      if Maybe(Optional(f, name), read) == Success(o) { assert read(f[name]) == Success(o.value); }
    }
  }

  lemma FinishIff(f: Fields, known: set<string>)
    ensures Finish(f, known) == Success(()) <==> OnlyFields(f, known)
  {
    var left := f - known;
    if OnlyFields(f, known) { assert left == map[]; }
    if left == map[] {
      forall k | k in f ensures k in known { assert k !in known ==> k in left; }
    }
  }

  lemma ReadsHashes()
    ensures Reads(ReadHashes, FormHashes)
  {
    ReadsSpelling();
    forall n, h ensures ReadHashes(n) == Success(h) <==> FormHashes(n, h) {
      if n.Mapping? {
        var f := ToMap(n.fields);
        OptionalIff(f, "md5", h.md5, StringOf, Spells);
        OptionalIff(f, "sha256", h.sha256, StringOf, Spells);
        FinishIff(f, {"md5", "sha256"});
      }
    }
  }

  lemma ReadsStrings()
    ensures Reads(Strings, FormStrings) && Reads(StringMap, FormStringMap)
  {
    ReadsSpelling();
    forall n, s ensures Strings(n) == Success(s) <==> FormStrings(n, s) { ListedIff(n, s, StringOf, Spells); }
    forall n, m ensures StringMap(n) == Success(m) <==> FormStringMap(n, m) { MappedIff(n, m, StringOf, Spells); }
  }

  lemma ReadsHashesMap()
    ensures Reads(ReadHashesMap, FormHashesMap)
  {
    ReadsHashes();
    forall n, m ensures ReadHashesMap(n) == Success(m) <==> FormHashesMap(n, m) { MappedIff(n, m, ReadHashes, FormHashes); }
  }

  lemma ReadsChannel()
    ensures Reads(ReadChannel, FormChannel)
  {
    ReadsStrings();
    forall n, c ensures ReadChannel(n) == Success(c) <==> FormChannel(n, c) {
      if n.Mapping? {
        var f := ToMap(n.fields);
        FinishIff(f, {"url", "used_env_vars"});
        assert "used_env_vars" in f ==>
          (Strings(f["used_env_vars"]) == Success(c.usedEnvVars) <==> FormStrings(f["used_env_vars"], c.usedEnvVars));
      }
    }
  }

  lemma ReadsTime()
    ensures Reads(ReadTime, FormTime)
  {
    forall n, s ensures ReadTime(n) == Success(s) <==> FormTime(n, s) {
      if n.Mapping? { FinishIff(ToMap(n.fields), {"created_at"}); }
    }
  }

  lemma ReadsGit()
    ensures Reads(ReadGit, FormGit)
  {
    ReadsSpelling();
    forall n, g ensures ReadGit(n) == Success(g) <==> FormGit(n, g) {
      if n.Mapping? {
        var f := ToMap(n.fields);
        OptionalIff(f, "git_user_name", g.userName, StringOf, Spells);
        OptionalIff(f, "git_user_email", g.userEmail, StringOf, Spells);
        OptionalIff(f, "git_sha", g.sha, StringOf, Spells);
        FinishIff(f, {"git_user_name", "git_user_email", "git_sha"});
      }
    }
  }

  lemma ReadsSource()
    ensures Reads(ReadSource, FormSource)
  {
    forall n, s ensures ReadSource(n) == Success(s) <==> FormSource(n, s) {
      if n.Mapping? { FinishIff(ToMap(n.fields), {"type", "url"}); }
    }
  }

  lemma IdentityIff(f: Fields, p: Package)
    ensures ReadIdentity(f) == Success((p.name, p.version, p.manager, p.platform)) <==> FormIdentity(f, p)
  {
  }

  lemma HashFieldIff(f: Fields, h: Hashes)
    ensures "hash" in f && ReadHashes(f["hash"]) == Success(h) <==> RequiredIs(f, "hash", h, FormHashes)
  {
    ReadsHashes();
    if "hash" in f { assert ReadHashes(f["hash"]) == Success(h) <==> FormHashes(f["hash"], h); }
  }

  lemma SourceFieldIff(f: Fields, source: Option<string>)
    ensures Maybe(Optional(f, "source"), ReadSource) == Success(source) <==> OptionalIs(f, "source", source, FormSource)
  {
    ReadsSource();
    OptionalIff(f, "source", source, ReadSource, FormSource);
  }

  lemma ArtifactIff(f: Fields, p: Package)
    ensures ReadArtifact(f) == Success((p.dependencies, p.url, p.hash, p.source)) <==> FormArtifact(f, p)
  {
    DependenciesIff(f, p.dependencies);
    HashFieldIff(f, p.hash);
    SourceFieldIff(f, p.source);
  }

  lemma DependenciesIff(f: Fields, m: map<string, string>)
    ensures
      var read := Maybe(Optional(f, "dependencies"), StringMap);
      read.Success? && (if read.value.Some? then read.value.value else map[]) == m <==>
        if "dependencies" in f && f["dependencies"] != Null then FormStringMap(f["dependencies"], m) else m == map[]
  {
    ReadsStrings();
    if "dependencies" in f && f["dependencies"] != Null {
      assert StringMap(f["dependencies"]) == Success(m) <==> FormStringMap(f["dependencies"], m);
    }
  }

  lemma InstallIff(f: Fields, p: Package)
    ensures ReadInstall(f) == Success((p.build, p.category, p.optional)) <==> FormInstall(f, p)
  {
    ReadsSpelling();
    OptionalIff(f, "build", p.build, StringOf, Spells);
  }

  lemma ReadsPackage()
    ensures Reads(ReadPackage, FormPackage)
  {
    assert PACKAGE_NAMES == PACKAGE_FIELDS;
    forall n, p ensures ReadPackage(n) == Success(p) <==> FormPackage(n, p) {
      if n.Mapping? {
        var f := ToMap(n.fields);
        IdentityIff(f, p);
        ArtifactIff(f, p);
        InstallIff(f, p);
        FinishIff(f, PACKAGE_FIELDS);
      }
    }
  }

  lemma DeclaredIff(f: Fields, m: Metadata)
    ensures ReadDeclared(f) == Success((m.contentHash, m.channels, m.platforms, m.sources)) <==> FormDeclared(f, m)
  {
    ReadsStrings();
    ReadsChannel();
    if "content_hash" in f {
      assert StringMap(f["content_hash"]) == Success(m.contentHash) <==> FormStringMap(f["content_hash"], m.contentHash);
    }
    if "channels" in f { ListedIff(f["channels"], m.channels, ReadChannel, FormChannel); }
    if "platforms" in f {
      assert Strings(f["platforms"]) == Success(m.platforms) <==> FormStrings(f["platforms"], m.platforms);
    }
    if "sources" in f {
      assert Strings(f["sources"]) == Success(m.sources) <==> FormStrings(f["sources"], m.sources);
    }
  }

  lemma ProvenanceIff(f: Fields, m: Metadata)
    ensures ReadProvenance(f) == Success((m.createdAt, m.git, m.inputs, m.custom)) <==> FormProvenance(f, m)
  {
    ReadsTime();
    ReadsGit();
    ReadsHashesMap();
    ReadsStrings();
    OptionalIff(f, "time_metadata", m.createdAt, ReadTime, FormTime);
    OptionalIff(f, "git_metadata", m.git, ReadGit, FormGit);
    OptionalIff(f, "inputs_metadata", m.inputs, ReadHashesMap, FormHashesMap);
    OptionalIff(f, "custom_metadata", m.custom, StringMap, FormStringMap);
  }

  lemma ReadsMetadata()
    ensures Reads(ReadMetadata, FormMetadata)
  {
    assert METADATA_NAMES == METADATA_FIELDS;
    forall n, m ensures ReadMetadata(n) == Success(m) <==> FormMetadata(n, m) {
      if n.Mapping? {
        var f := ToMap(n.fields);
        DeclaredIff(f, m);
        ProvenanceIff(f, m);
        FinishIff(f, METADATA_FIELDS);
      }
    }
  }

  lemma ReadsLock()
    ensures Reads(ReadLock, FormLock)
  {
    forall n, l ensures ReadLock(n) == Success(l) <==> FormLock(n, l) {
      if n.Mapping? {
        ContentsIff(ToMap(n.fields), l);
        FinishIff(ToMap(n.fields), LOCK_FIELDS);
      }
    }
  }

  lemma ContentsIff(f: Fields, l: LockFile)
    ensures ReadContents(f) == Success((l.metadata, l.package)) <==>
      RequiredIs(f, "metadata", l.metadata, FormMetadata) && RequiredIs(f, "package", l.package, FormPackages)
  {
    ReadsMetadata();
    ReadsPackage();
    if "metadata" in f {
      assert ReadMetadata(f["metadata"]) == Success(l.metadata) <==> FormMetadata(f["metadata"], l.metadata);
    }
    if "package" in f { ListedIff(f["package"], l.package, ReadPackage, FormPackage); }
  }

  /** The parser accepts a document as the lock l exactly when no mapping repeats a key and the
      document has the form of l. */
  lemma ParseIff(n: Raw, l: LockFile)
    ensures Parse(n) == Success(l) <==> NoDuplicates(n) && FormLock(n, l)
  {
    DuplicateFound(n);
    ReadsLock();
    assert ReadLock(n) == Success(l) <==> FormLock(n, l);
  }
}
