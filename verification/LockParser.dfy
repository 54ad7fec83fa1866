/** The hand-written tree parser of crates/rattler_conda_lock/src/parse.rs. */
module LockParser {
  import opened Orders
  import opened LockModel
  import opened LockTree

  datatype ValueKind = MappingKind | SequenceKind | StringKind | BooleanKind

  datatype ErrorKind =
    | DuplicateKey(key: string)
    | UnexpectedType(expected: ValueKind)
    | MissingField(field: string)
    | UnknownField(field: string)
    | UnsupportedVersion
    | UnknownManager(found: string)
    | UnsupportedSourceType(found: string)

  // ---------------------------------------------------------------- Repeated keys

  /** The first repeated key met when visiting the tree top down. */
  function FirstDuplicate(n: Raw): Option<string>
    decreases n, 0
  {
    match n
    case Mapping(fields) => DuplicateInFields({}, fields)
    case Sequence(items) => DuplicateInItems(items)
    case _ => None
  }

  function DuplicateInFields(seen: set<string>, fields: seq<Field>): Option<string>
    decreases fields, 1
  {
    if fields == [] then None
    else if fields[0].key in seen then Some(fields[0].key)
    else
      var inner := FirstDuplicate(fields[0].value);
      if inner.Some? then inner else DuplicateInFields(seen + {fields[0].key}, fields[1..])
  }

  function DuplicateInItems(items: seq<Raw>): Option<string>
    decreases items, 1
  {
    if items == [] then None
    else
      var inner := FirstDuplicate(items[0]);
      if inner.Some? then inner else DuplicateInItems(items[1..])
  }

  /** No mapping of the tree has the same key twice. */
  ghost predicate NoDuplicates(n: Raw) {
    match n
    case Mapping(fields) =>
      && (forall i, j :: 0 <= i < j < |fields| ==> fields[i].key != fields[j].key)
      && (forall i :: 0 <= i < |fields| ==> NoDuplicates(fields[i].value))
    case Sequence(items) => forall i :: 0 <= i < |items| ==> NoDuplicates(items[i])
    case _ => true
  }

  lemma {:induction false} DuplicateFound(n: Raw)
    ensures FirstDuplicate(n) == None <==> NoDuplicates(n)
    decreases n, 0
  {
    match n {
      case Mapping(fields) => DuplicateFieldFound({}, fields);
      case Sequence(items) => DuplicateItemFound(items);
      case _ =>
    }
  }

  lemma {:induction false} DuplicateFieldFound(seen: set<string>, fields: seq<Field>)
    ensures DuplicateInFields(seen, fields) == None <==>
      && (forall i :: 0 <= i < |fields| ==> fields[i].key !in seen)
      && (forall i, j :: 0 <= i < j < |fields| ==> fields[i].key != fields[j].key)
      && (forall i :: 0 <= i < |fields| ==> NoDuplicates(fields[i].value))
    decreases fields, 1
  {
    if fields != [] {
      var rest := fields[1..];
      DuplicateFound(fields[0].value);
      DuplicateFieldFound(seen + {fields[0].key}, rest);
      assert forall i :: 0 <= i < |rest| ==> rest[i] == fields[i + 1];
      assert forall i :: 1 <= i < |fields| ==> fields[i] == rest[i - 1];
    }
  }

  lemma {:induction false} DuplicateItemFound(items: seq<Raw>)
    ensures DuplicateInItems(items) == None <==> forall i :: 0 <= i < |items| ==> NoDuplicates(items[i])
    decreases items, 1
  {
    if items != [] {
      DuplicateFound(items[0]);
      DuplicateItemFound(items[1..]);
      assert forall i :: 0 <= i < |items[1..]| ==> items[1..][i] == items[i + 1];
      assert forall i :: 1 <= i < |items| ==> items[i] == items[1..][i - 1];
    }
  }

  // ---------------------------------------------------------------- Fields

  type Fields = map<string, Raw>

  function FieldsOf(n: Raw): Result<Fields, ErrorKind> {
    if n.Mapping? then Success(ToMap(n.fields)) else Failure(UnexpectedType(MappingKind))
  }

  function Required(f: Fields, name: string): Result<Raw, ErrorKind> {
    if name in f then Success(f[name]) else Failure(MissingField(name))
  }

  /** An explicit null counts as absent. */
  function Optional(f: Fields, name: string): Option<Raw> {
    if name in f && f[name] != Null then Some(f[name]) else None
  }

  /** Every field must have been asked for; otherwise the least one left is reported. */
  function Finish(f: Fields, known: set<string>): Result<(), ErrorKind> {
    var left := f - known;
    if left == map[] then Success(()) else assert Keys(left) != [] by { LeftOver(left); } Failure(UnknownField(Keys(left)[0]))
  }

  lemma LeftOver(m: Fields)
    requires m != map[]
    ensures Keys(m) != []
  {
    var k :| k in m;
    assert k in Keys(m);
  }

  // ---------------------------------------------------------------- Scalars and sequences

  function SequenceOf(n: Raw): Result<seq<Raw>, ErrorKind> {
    if n.Sequence? then Success(n.items) else Failure(UnexpectedType(SequenceKind))
  }

  /** Numbers and booleans keep the spelling of the source. */
  function StringOf(n: Raw): Result<string, ErrorKind> {
    match n
    case String(text) => Success(text)
    case Number(_, spelling) => Success(spelling)
    case Bool(_, spelling) => Success(spelling)
    case _ => Failure(UnexpectedType(StringKind))
  }

  /** Read every item in turn; the first failure ends it. */
  function Each<T>(items: seq<Raw>, read: Raw -> Result<T, ErrorKind>): Result<seq<T>, ErrorKind> {
    if items == [] then Success([])
    else
      var first :- read(items[0]);
      var rest :- Each(items[1..], read);
      Success([first] + rest)
  }

  /** Read every value of a mapping in key order. */
  function EachValue<T>(keys: seq<string>, f: Fields, read: Raw -> Result<T, ErrorKind>): Result<map<string, T>, ErrorKind>
    requires forall k :: k in keys ==> k in f
  {
    if keys == [] then Success(map[])
    else
      var first :- read(f[keys[0]]);
      var rest :- EachValue(keys[1..], f, read);
      Success(rest[keys[0] := first])
  }

  function Strings(n: Raw): Result<seq<string>, ErrorKind> {
    var items :- SequenceOf(n);
    Each(items, StringOf)
  }

  function StringMap(n: Raw): Result<map<string, string>, ErrorKind> {
    var f :- FieldsOf(n);
    EachValue(Keys(f), f, StringOf)
  }

  function StringField(f: Fields, name: string): Result<string, ErrorKind> {
    var n :- Required(f, name);
    StringOf(n)
  }

  /** Read a value that may be absent. */
  function Maybe<T>(n: Option<Raw>, read: Raw -> Result<T, ErrorKind>): Result<Option<T>, ErrorKind> {
    match n
    case None => Success(None)
    case Some(value) =>
      var x :- read(value);
      Success(Some(x))
  }

  function OptionalString(f: Fields, name: string): Result<Option<string>, ErrorKind> {
    Maybe(Optional(f, name), StringOf)
  }

  // ---------------------------------------------------------------- Structs

  function ReadHashes(n: Raw): Result<Hashes, ErrorKind> {
    var f :- FieldsOf(n);
    var md5 :- OptionalString(f, "md5");
    var sha256 :- OptionalString(f, "sha256");
    var _ :- Finish(f, {"md5", "sha256"});
    Success(Hashes(md5, sha256))
  }

  function ReadHashesMap(n: Raw): Result<map<string, Hashes>, ErrorKind> {
    var f :- FieldsOf(n);
    EachValue(Keys(f), f, ReadHashes)
  }

  /** A bare string is a channel without environment variables. */
  function ReadChannel(n: Raw): Result<Channel, ErrorKind> {
    if n.String? then Success(Channel(n.text, []))
    else
      var f :- FieldsOf(n);
      var url :- StringField(f, "url");
      var vars :- Required(f, "used_env_vars");
      var usedEnvVars :- Strings(vars);
      var _ :- Finish(f, {"url", "used_env_vars"});
      Success(Channel(url, usedEnvVars))
  }

  function ReadTime(n: Raw): Result<string, ErrorKind> {
    var f :- FieldsOf(n);
    var createdAt :- StringField(f, "created_at");
    var _ :- Finish(f, {"created_at"});
    Success(createdAt)
  }

  function ReadGit(n: Raw): Result<GitMetadata, ErrorKind> {
    var f :- FieldsOf(n);
    var userName :- OptionalString(f, "git_user_name");
    var userEmail :- OptionalString(f, "git_user_email");
    var sha :- OptionalString(f, "git_sha");
    var _ :- Finish(f, {"git_user_name", "git_user_email", "git_sha"});
    Success(GitMetadata(userName, userEmail, sha))
  }

  function ReadSource(n: Raw): Result<string, ErrorKind> {
    var f :- FieldsOf(n);
    var found :- StringField(f, "type");
    if found != "url" then Failure(UnsupportedSourceType(found))
    else
      var url :- StringField(f, "url");
      var _ :- Finish(f, {"type", "url"});
      Success(url)
  }

  function ReadManager(name: string): Result<Manager, ErrorKind> {
    if name == "conda" then Success(Conda)
    else if name == "pip" then Success(Pip)
    else Failure(UnknownManager(name))
  }

  /** The category defaults to main when absent; an explicit null is not a category. */
  function ReadCategory(f: Fields): Result<string, ErrorKind> {
    if "category" in f then StringOf(f["category"]) else Success("main")
  }

  function ReadBool(n: Raw): Result<bool, ErrorKind> {
    if n.Bool? then Success(n.truth) else Failure(UnexpectedType(BooleanKind))
  }

  const IDENTITY_FIELDS := {"name", "version", "manager", "platform"}
  const ARTIFACT_FIELDS := {"dependencies", "url", "hash", "source"}
  const INSTALL_FIELDS := {"build", "category", "optional"}
  const PACKAGE_FIELDS := IDENTITY_FIELDS + ARTIFACT_FIELDS + INSTALL_FIELDS

  function ReadIdentity(f: Fields): Result<(string, string, Manager, string), ErrorKind> {
    var name :- StringField(f, "name");
    var version :- StringField(f, "version");
    var managerName :- StringField(f, "manager");
    var manager :- ReadManager(managerName);
    var platform :- StringField(f, "platform");
    Success((name, version, manager, platform))
  }

  function ReadArtifact(f: Fields): Result<(map<string, string>, string, Hashes, Option<string>), ErrorKind> {
    var dependencies :- Maybe(Optional(f, "dependencies"), StringMap);
    var url :- StringField(f, "url");
    var hashNode :- Required(f, "hash");
    var hash :- ReadHashes(hashNode);
    var source :- Maybe(Optional(f, "source"), ReadSource);
    Success((if dependencies.Some? then dependencies.value else map[], url, hash, source))
  }

  function ReadInstall(f: Fields): Result<(Option<string>, string, bool), ErrorKind> {
    var build :- OptionalString(f, "build");
    var category :- ReadCategory(f);
    var optionalNode :- Required(f, "optional");
    var optional :- ReadBool(optionalNode);
    Success((build, category, optional))
  }

  function ReadPackage(n: Raw): Result<Package, ErrorKind> {
    var f :- FieldsOf(n);
    var what :- ReadIdentity(f);
    var artifact :- ReadArtifact(f);
    var install :- ReadInstall(f);
    var _ :- Finish(f, PACKAGE_FIELDS);
    Success(Package(what.0, what.1, what.2, what.3, artifact.0, artifact.1, artifact.2, artifact.3,
                    install.0, install.1, install.2))
  }

  const DECLARED_FIELDS := {"content_hash", "channels", "platforms", "sources"}
  const PROVENANCE_FIELDS := {"time_metadata", "git_metadata", "inputs_metadata", "custom_metadata"}
  const METADATA_FIELDS := DECLARED_FIELDS + PROVENANCE_FIELDS

  function ReadDeclared(f: Fields): Result<(map<string, string>, seq<Channel>, seq<string>, seq<string>), ErrorKind> {
    var contentHashNode :- Required(f, "content_hash");
    var contentHash :- StringMap(contentHashNode);
    var channelsNode :- Required(f, "channels");
    var channelItems :- SequenceOf(channelsNode);
    var channels :- Each(channelItems, ReadChannel);
    var platformsNode :- Required(f, "platforms");
    var platforms :- Strings(platformsNode);
    var sourcesNode :- Required(f, "sources");
    var sources :- Strings(sourcesNode);
    Success((contentHash, channels, platforms, sources))
  }

  function ReadProvenance(f: Fields)
    : Result<(Option<string>, Option<GitMetadata>, Option<map<string, Hashes>>, Option<map<string, string>>), ErrorKind>
  {
    var createdAt :- Maybe(Optional(f, "time_metadata"), ReadTime);
    var git :- Maybe(Optional(f, "git_metadata"), ReadGit);
    var inputs :- Maybe(Optional(f, "inputs_metadata"), ReadHashesMap);
    var custom :- Maybe(Optional(f, "custom_metadata"), StringMap);
    Success((createdAt, git, inputs, custom))
  }

  function ReadMetadata(n: Raw): Result<Metadata, ErrorKind> {
    var f :- FieldsOf(n);
    var declared :- ReadDeclared(f);
    var provenance :- ReadProvenance(f);
    var _ :- Finish(f, METADATA_FIELDS);
    Success(Metadata(declared.0, declared.1, declared.2, declared.3,
                     provenance.0, provenance.1, provenance.2, provenance.3))
  }

  /** The schema version may be absent; if present it is the number 1, spelled 1. */
  predicate VersionSupported(f: Fields) {
    "version" in f ==> f["version"].Number? && f["version"].number == "1" && f["version"].spelling == "1"
  }

  const CONTENT_FIELDS := {"metadata", "package"}
  const LOCK_FIELDS := {"version"} + CONTENT_FIELDS

  function ReadContents(f: Fields): Result<(Metadata, seq<Package>), ErrorKind> {
    var metadataNode :- Required(f, "metadata");
    var metadata :- ReadMetadata(metadataNode);
    var packageNode :- Required(f, "package");
    var packageItems :- SequenceOf(packageNode);
    var package :- Each(packageItems, ReadPackage);
    Success((metadata, package))
  }

  function ReadLock(n: Raw): Result<LockFile, ErrorKind> {
    var f :- FieldsOf(n);
    if !VersionSupported(f) then Failure(UnsupportedVersion)
    else
      var contents :- ReadContents(f);
      var _ :- Finish(f, LOCK_FIELDS);
      Success(LockFile(contents.0, contents.1))
  }

  /** Reject repeated keys anywhere in the tree, then read the lock. */
  function Parse(n: Raw): Result<LockFile, ErrorKind> {
    match FirstDuplicate(n)
    case Some(key) => Failure(DuplicateKey(key))
    case None => ReadLock(n)
  }
}
