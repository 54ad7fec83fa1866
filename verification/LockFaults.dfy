/** Which error a rejected document gets: a repeated key first, then the first rule of the grammar
    that it breaks, in the order in which the fields are asked for
    (crates/rattler_conda_lock/src/parse.rs). */
module LockFaults {
  import opened Orders
  import opened LockModel
  import opened LockTree
  import opened LockParser
  import opened LockGrammar

  // ---------------------------------------------------------------- Parts of a document

  type Fault = (Raw, ErrorKind) -> bool

  /** The value has the form of something. */
  ghost predicate Good<T(!new)>(n: Raw, form: Form<T>) { exists x :: form(n, x) }

  ghost predicate RequiredGood<T(!new)>(f: Fields, name: string, form: Form<T>) { name in f && Good(f[name], form) }

  ghost predicate OptionalGood<T(!new)>(f: Fields, name: string, form: Form<T>) {
    name in f && f[name] != Null ==> Good(f[name], form)
  }

  ghost predicate TextFault(n: Raw, e: ErrorKind) { !Good(n, Spells) && e == UnexpectedType(StringKind) }

  /** The field is missing, or its value is at fault. */
  ghost predicate RequiredFault(f: Fields, name: string, fault: Fault, e: ErrorKind) {
    if name in f then fault(f[name], e) else e == MissingField(name)
  }

  ghost predicate OptionalFault(f: Fields, name: string, fault: Fault, e: ErrorKind) {
    name in f && f[name] != Null && fault(f[name], e)
  }

  /** The least field that is not known. */
  ghost predicate UnknownFault(f: Fields, known: set<string>, e: ErrorKind) {
    && e.UnknownField? && e.field in f && e.field !in known
    && forall k :: k in f && k !in known ==> !StringLess(k, e.field)
  }

  /** Not a sequence, or the first item at fault. */
  ghost predicate ListFault<T(!new)>(n: Raw, form: Form<T>, fault: Fault, e: ErrorKind) {
    if !n.Sequence? then e == UnexpectedType(SequenceKind)
    else ItemFault(n.items, form, fault, e)
  }

  ghost predicate ItemFault<T(!new)>(items: seq<Raw>, form: Form<T>, fault: Fault, e: ErrorKind) {
    exists i :: 0 <= i < |items| && fault(items[i], e) && forall j :: 0 <= j < i ==> Good(items[j], form)
  }

  /** Not a mapping, or the value at fault of least key. */
  ghost predicate MapFault<T(!new)>(n: Raw, form: Form<T>, fault: Fault, e: ErrorKind) {
    if !n.Mapping? then e == UnexpectedType(MappingKind)
    else ValueFault(ToMap(n.fields), form, fault, e)
  }

  ghost predicate ValueFault<T(!new)>(f: Fields, form: Form<T>, fault: Fault, e: ErrorKind) {
    exists k :: k in f && fault(f[k], e) && forall j :: j in f && StringLess(j, k) ==> Good(f[j], form)
  }

  ghost predicate StringsFault(n: Raw, e: ErrorKind) { ListFault(n, Spells, TextFault, e) }
  ghost predicate StringMapFault(n: Raw, e: ErrorKind) { MapFault(n, Spells, TextFault, e) }
  ghost predicate HashesMapFault(n: Raw, e: ErrorKind) { MapFault(n, FormHashes, HashesFault, e) }
  ghost predicate ChannelsFault(n: Raw, e: ErrorKind) { ListFault(n, FormChannel, ChannelFault, e) }
  ghost predicate PackagesFault(n: Raw, e: ErrorKind) { ListFault(n, FormPackage, PackageFault, e) }

  // ---------------------------------------------------------------- Structs

  ghost predicate HashesFault(n: Raw, e: ErrorKind) {
    if !n.Mapping? then e == UnexpectedType(MappingKind)
    else
      var f := ToMap(n.fields);
      if !OptionalGood(f, "md5", Spells) then OptionalFault(f, "md5", TextFault, e)
      else if !OptionalGood(f, "sha256", Spells) then OptionalFault(f, "sha256", TextFault, e)
      else UnknownFault(f, {"md5", "sha256"}, e)
  }

  ghost predicate ChannelFault(n: Raw, e: ErrorKind) {
    !n.String? &&
    if !n.Mapping? then e == UnexpectedType(MappingKind)
    else
      var f := ToMap(n.fields);
      if !RequiredGood(f, "url", Spells) then RequiredFault(f, "url", TextFault, e)
      else if !RequiredGood(f, "used_env_vars", FormStrings) then RequiredFault(f, "used_env_vars", StringsFault, e)
      else UnknownFault(f, {"url", "used_env_vars"}, e)
  }

  ghost predicate TimeFault(n: Raw, e: ErrorKind) {
    if !n.Mapping? then e == UnexpectedType(MappingKind)
    else
      var f := ToMap(n.fields);
      if !RequiredGood(f, "created_at", Spells) then RequiredFault(f, "created_at", TextFault, e)
      else UnknownFault(f, {"created_at"}, e)
  }

  ghost predicate GitFault(n: Raw, e: ErrorKind) {
    if !n.Mapping? then e == UnexpectedType(MappingKind)
    else
      var f := ToMap(n.fields);
      if !OptionalGood(f, "git_user_name", Spells) then OptionalFault(f, "git_user_name", TextFault, e)
      else if !OptionalGood(f, "git_user_email", Spells) then OptionalFault(f, "git_user_email", TextFault, e)
      else if !OptionalGood(f, "git_sha", Spells) then OptionalFault(f, "git_sha", TextFault, e)
      else UnknownFault(f, {"git_user_name", "git_user_email", "git_sha"}, e)
  }

  /** A source of another kind than url is named as such. */
  ghost predicate SourceFault(n: Raw, e: ErrorKind) {
    if !n.Mapping? then e == UnexpectedType(MappingKind)
    else
      var f := ToMap(n.fields);
      if !RequiredGood(f, "type", Spells) then RequiredFault(f, "type", TextFault, e)
      else if !Spells(f["type"], "url") then e.UnsupportedSourceType? && Spells(f["type"], e.found)
      else if !RequiredGood(f, "url", Spells) then RequiredFault(f, "url", TextFault, e)
      else UnknownFault(f, {"type", "url"}, e)
  }

  ghost predicate GoodIdentity(f: Fields) { exists p: Package :: FormIdentity(f, p) }
  ghost predicate GoodArtifact(f: Fields) { exists p: Package :: FormArtifact(f, p) }
  ghost predicate GoodInstall(f: Fields) { exists p: Package :: FormInstall(f, p) }

  ghost predicate IdentityFaultIn(f: Fields, e: ErrorKind) {
    if !RequiredGood(f, "name", Spells) then RequiredFault(f, "name", TextFault, e)
    else if !RequiredGood(f, "version", Spells) then RequiredFault(f, "version", TextFault, e)
    else if !RequiredGood(f, "manager", Spells) then RequiredFault(f, "manager", TextFault, e)
    else if !Good(f["manager"], FormManager) then e.UnknownManager? && Spells(f["manager"], e.found)
    else !RequiredGood(f, "platform", Spells) && RequiredFault(f, "platform", TextFault, e)
  }

  ghost predicate ArtifactFaultIn(f: Fields, e: ErrorKind) {
    if !OptionalGood(f, "dependencies", FormStringMap) then OptionalFault(f, "dependencies", StringMapFault, e)
    else if !RequiredGood(f, "url", Spells) then RequiredFault(f, "url", TextFault, e)
    else if !RequiredGood(f, "hash", FormHashes) then RequiredFault(f, "hash", HashesFault, e)
    else !OptionalGood(f, "source", FormSource) && OptionalFault(f, "source", SourceFault, e)
  }

  /** A null is not a category, and not a flag. */
  ghost predicate InstallFaultIn(f: Fields, e: ErrorKind) {
    if !OptionalGood(f, "build", Spells) then OptionalFault(f, "build", TextFault, e)
    else if "category" in f && !Good(f["category"], Spells) then e == UnexpectedType(StringKind)
    else if "optional" in f then !f["optional"].Bool? && e == UnexpectedType(BooleanKind)
    else e == MissingField("optional")
  }

  ghost predicate PackageFault(n: Raw, e: ErrorKind) {
    if !n.Mapping? then e == UnexpectedType(MappingKind)
    else
      var f := ToMap(n.fields);
      if !GoodIdentity(f) then IdentityFaultIn(f, e)
      else if !GoodArtifact(f) then ArtifactFaultIn(f, e)
      else if !GoodInstall(f) then InstallFaultIn(f, e)
      else UnknownFault(f, PACKAGE_NAMES, e)
  }

  ghost predicate GoodDeclared(f: Fields) { exists m: Metadata :: FormDeclared(f, m) }
  ghost predicate GoodProvenance(f: Fields) { exists m: Metadata :: FormProvenance(f, m) }

  ghost predicate DeclaredFaultIn(f: Fields, e: ErrorKind) {
    if !RequiredGood(f, "content_hash", FormStringMap) then RequiredFault(f, "content_hash", StringMapFault, e)
    else if !RequiredGood(f, "channels", FormChannels) then RequiredFault(f, "channels", ChannelsFault, e)
    else if !RequiredGood(f, "platforms", FormStrings) then RequiredFault(f, "platforms", StringsFault, e)
    else !RequiredGood(f, "sources", FormStrings) && RequiredFault(f, "sources", StringsFault, e)
  }

  ghost predicate ProvenanceFaultIn(f: Fields, e: ErrorKind) {
    if !OptionalGood(f, "time_metadata", FormTime) then OptionalFault(f, "time_metadata", TimeFault, e)
    else if !OptionalGood(f, "git_metadata", FormGit) then OptionalFault(f, "git_metadata", GitFault, e)
    else if !OptionalGood(f, "inputs_metadata", FormHashesMap) then
      OptionalFault(f, "inputs_metadata", HashesMapFault, e)
    else !OptionalGood(f, "custom_metadata", FormStringMap) && OptionalFault(f, "custom_metadata", StringMapFault, e)
  }

  ghost predicate MetadataFault(n: Raw, e: ErrorKind) {
    if !n.Mapping? then e == UnexpectedType(MappingKind)
    else
      var f := ToMap(n.fields);
      if !GoodDeclared(f) then DeclaredFaultIn(f, e)
      else if !GoodProvenance(f) then ProvenanceFaultIn(f, e)
      else UnknownFault(f, METADATA_NAMES, e)
  }

  /** The version comes before everything else, unknown fields after everything else. */
  ghost predicate LockFault(n: Raw, e: ErrorKind) {
    if !n.Mapping? then e == UnexpectedType(MappingKind)
    else
      var f := ToMap(n.fields);
      if "version" in f && f["version"] != Number("1", "1") then e == UnsupportedVersion
      else if !RequiredGood(f, "metadata", FormMetadata) then RequiredFault(f, "metadata", MetadataFault, e)
      else if !RequiredGood(f, "package", FormPackages) then RequiredFault(f, "package", PackagesFault, e)
      else UnknownFault(f, {"version", "metadata", "package"}, e)
  }

  // ---------------------------------------------------------------- Repeated keys

  /** The entries before place j have different keys and no repeated key inside. */
  ghost predicate Settled(fields: seq<Field>, j: nat)
    requires j <= |fields|
  {
    && (forall h, i :: 0 <= h < i < j ==> fields[h].key != fields[i].key)
    && (forall i :: 0 <= i < j ==> NoDuplicates(fields[i].value))
  }

  ghost predicate KeySeen(fields: seq<Field>, j: nat)
    requires j < |fields|
  {
    exists i :: 0 <= i < j && fields[i].key == fields[j].key
  }

  /** The key k is repeated, and before its second occurrence, from the top down, no key is. */
  ghost predicate RepeatedFirst(n: Raw, k: string) {
    match n
    case Mapping(fields) =>
      exists j :: 0 <= j < |fields| && Settled(fields, j) &&
        if KeySeen(fields, j) then k == fields[j].key else RepeatedFirst(fields[j].value, k)
    case Sequence(items) =>
      exists j :: 0 <= j < |items| && RepeatedFirst(items[j], k) && forall i :: 0 <= i < j ==> NoDuplicates(items[i])
    case _ => false
  }

  // ---------------------------------------------------------------- The readers report these faults

  /** The reader fails with e exactly on the documents with fault e. */
  ghost predicate Explained<T(!new)>(read: Raw -> Result<T, ErrorKind>, fault: Fault) {
    forall n, e {:trigger fault(n, e)} :: read(n) == Failure(e) <==> fault(n, e)
  }

  lemma GoodIff<T(!new)>(n: Raw, read: Raw -> Result<T, ErrorKind>, form: Form<T>)
    requires Reads(read, form)
    ensures Good(n, form) <==> read(n).Success?
  {
    if read(n).Success? { assert form(n, read(n).value); }
    if x :| form(n, x) { assert read(n) == Success(x); }
  }

  lemma ExplainsText()
    ensures Reads(StringOf, Spells) && Explained(StringOf, TextFault)
  {
    ReadsSpelling();
    forall n, e ensures StringOf(n) == Failure(e) <==> TextFault(n, e) { GoodIff(n, StringOf, Spells); }
  }

  lemma OptionalFaultIff<T(!new)>(f: Fields, name: string, read: Raw -> Result<T, ErrorKind>, form: Form<T>, fault: Fault, e: ErrorKind)
    requires Reads(read, form) && Explained(read, fault)
    ensures Maybe(Optional(f, name), read).Success? <==> OptionalGood(f, name, form)
    ensures Maybe(Optional(f, name), read) == Failure(e) <==> OptionalFault(f, name, fault, e)
  {
    if name in f && f[name] != Null {
      GoodIff(f[name], read, form);
      assert read(f[name]) == Failure(e) <==> fault(f[name], e);
    }
  }

  lemma RequiredFaultIff<T(!new)>(f: Fields, name: string, read: Raw -> Result<T, ErrorKind>, form: Form<T>, fault: Fault, e: ErrorKind)
    requires Reads(read, form) && Explained(read, fault)
    ensures name in f && read(f[name]).Success? <==> RequiredGood(f, name, form)
    ensures (if name in f then read(f[name]) == Failure(e) else e == MissingField(name)) <==> RequiredFault(f, name, fault, e)
  {
    if name in f {
      GoodIff(f[name], read, form);
      assert read(f[name]) == Failure(e) <==> fault(f[name], e);
    }
  }

  lemma TextFieldIff(f: Fields, name: string, e: ErrorKind)
    ensures StringField(f, name).Success? <==> RequiredGood(f, name, Spells)
    ensures StringField(f, name) == Failure(e) <==> RequiredFault(f, name, TextFault, e)
  {
    ExplainsText();
    RequiredFaultIff(f, name, StringOf, Spells, TextFault, e);
  }

  lemma OptionalTextIff(f: Fields, name: string, e: ErrorKind)
    ensures OptionalString(f, name).Success? <==> OptionalGood(f, name, Spells)
    ensures OptionalString(f, name) == Failure(e) <==> OptionalFault(f, name, TextFault, e)
  {
    ExplainsText();
    OptionalFaultIff(f, name, StringOf, Spells, TextFault, e);
  }

  lemma UnknownFaultIff(f: Fields, known: set<string>, e: ErrorKind)
    ensures Finish(f, known) == Failure(e) <==> UnknownFault(f, known, e)
  {
    var left := f - known;
    StringOrder();
    assert forall k :: k in left <==> k in f && k !in known;
    if left != map[] {
      LeftOver(left);
      var keys := Keys(left);
      assert keys[0] in keys;
      forall k | k in left ensures k == keys[0] || StringLess(keys[0], k) {
        assert k in keys;
        var i :| 0 <= i < |keys| && keys[i] == k;
      }
    }
  }

  lemma {:induction false} ItemFaultIff<T(!new)>(items: seq<Raw>, read: Raw -> Result<T, ErrorKind>, form: Form<T>, fault: Fault, e: ErrorKind)
    requires Reads(read, form) && Explained(read, fault)
    ensures Each(items, read) == Failure(e) <==> ItemFault(items, form, fault, e)
  {
    if items != [] {
      var rest := items[1..];
      ItemFaultIff(rest, read, form, fault, e);
      GoodIff(items[0], read, form);
      assert read(items[0]) == Failure(e) <==> fault(items[0], e);
      FirstItemFault(items, form, fault, e);
    }
  }

  lemma FirstItemFault<T(!new)>(items: seq<Raw>, form: Form<T>, fault: Fault, e: ErrorKind)
    requires items != []
    ensures ItemFault(items, form, fault, e) <==>
      fault(items[0], e) || (Good(items[0], form) && ItemFault(items[1..], form, fault, e))
  {
    var rest := items[1..];
    if ItemFault(items, form, fault, e) {
      var i :| 0 <= i < |items| && fault(items[i], e) && forall j :: 0 <= j < i ==> Good(items[j], form);
      if i > 0 {
        assert fault(rest[i - 1], e);
        forall j | 0 <= j < i - 1 ensures Good(rest[j], form) { assert rest[j] == items[j + 1]; }
      }
    }
    if fault(items[0], e) { assert ItemFault(items, form, fault, e); }
    if Good(items[0], form) && ItemFault(rest, form, fault, e) {
      var i :| 0 <= i < |rest| && fault(rest[i], e) && forall j :: 0 <= j < i ==> Good(rest[j], form);
      var k := i + 1;
      assert fault(items[k], e);
      forall j | 0 <= j < k ensures Good(items[j], form) { if j > 0 { assert items[j] == rest[j - 1]; } }
    }
  }

  function ValuesAt(keys: seq<string>, f: Fields): seq<Raw>
    requires forall k :: k in keys ==> k in f
  {
    seq(|keys|, i requires 0 <= i < |keys| => assert keys[i] in keys; f[keys[i]])
  }

  lemma {:induction false} EachValueFails<T>(keys: seq<string>, f: Fields, read: Raw -> Result<T, ErrorKind>, e: ErrorKind)
    requires forall k :: k in keys ==> k in f
    ensures EachValue(keys, f, read) == Failure(e) <==> Each(ValuesAt(keys, f), read) == Failure(e)
  {
    if keys != [] {
      EachValueFails(keys[1..], f, read, e);
      assert ValuesAt(keys, f)[1..] == ValuesAt(keys[1..], f);
    }
  }

  ghost predicate KeysInOrder(keys: seq<string>, f: Fields) {
    Increasing(StringLess, keys) && forall k :: k in keys <==> k in f
  }

  lemma EarlierKey(keys: seq<string>, i: nat, k: string)
    requires Increasing(StringLess, keys) && i < |keys| && k in keys && StringLess(k, keys[i])
    ensures exists j :: 0 <= j < i && keys[j] == k
  {
    StringOrder();
    var j :| 0 <= j < |keys| && keys[j] == k;
  }

  lemma FirstItemIsLeastKey<T(!new)>(keys: seq<string>, f: Fields, form: Form<T>, fault: Fault, e: ErrorKind)
    requires KeysInOrder(keys, f) && ItemFault(ValuesAt(keys, f), form, fault, e)
    ensures ValueFault(f, form, fault, e)
  {
    var items := ValuesAt(keys, f);
    var i :| 0 <= i < |items| && fault(items[i], e) && forall j :: 0 <= j < i ==> Good(items[j], form);
    var k := keys[i];
    assert k in keys && items[i] == f[k];
    forall l | l in f && StringLess(l, k) ensures Good(f[l], form) {
      EarlierKey(keys, i, l);
      var j :| 0 <= j < i && keys[j] == l;
      assert Good(items[j], form);
    }
  }

  lemma LeastKeyIsFirstItem<T(!new)>(keys: seq<string>, f: Fields, form: Form<T>, fault: Fault, e: ErrorKind)
    requires KeysInOrder(keys, f) && ValueFault(f, form, fault, e)
    ensures ItemFault(ValuesAt(keys, f), form, fault, e)
  {
    var items := ValuesAt(keys, f);
    var k :| k in f && fault(f[k], e) && forall j :: j in f && StringLess(j, k) ==> Good(f[j], form);
    assert k in keys;
    var i :| 0 <= i < |keys| && keys[i] == k;
    forall j | 0 <= j < i ensures Good(items[j], form) { assert keys[j] in keys && StringLess(keys[j], k); }
    assert fault(items[i], e);
  }

  lemma ValuesInKeyOrder<T(!new)>(f: Fields, form: Form<T>, fault: Fault, e: ErrorKind)
    ensures (forall k :: k in Keys(f) ==> k in f) && (ItemFault(ValuesAt(Keys(f), f), form, fault, e) <==> ValueFault(f, form, fault, e))
  {
    var keys := Keys(f);
    if ItemFault(ValuesAt(keys, f), form, fault, e) { FirstItemIsLeastKey(keys, f, form, fault, e); }
    if ValueFault(f, form, fault, e) { LeastKeyIsFirstItem(keys, f, form, fault, e); }
  }

  lemma ListFaultIff<T(!new)>(n: Raw, read: Raw -> Result<T, ErrorKind>, form: Form<T>, fault: Fault, e: ErrorKind)
    requires Reads(read, form) && Explained(read, fault)
    ensures (if n.Sequence? then Each(n.items, read) == Failure(e) else e == UnexpectedType(SequenceKind)) <==>
      ListFault(n, form, fault, e)
  {
    if n.Sequence? { ItemFaultIff(n.items, read, form, fault, e); }
  }

  lemma MapFaultIff<T(!new)>(n: Raw, read: Raw -> Result<T, ErrorKind>, form: Form<T>, fault: Fault, e: ErrorKind)
    requires Reads(read, form) && Explained(read, fault)
    ensures
      (if n.Mapping? then EachValue(Keys(ToMap(n.fields)), ToMap(n.fields), read) == Failure(e)
       else e == UnexpectedType(MappingKind)) <==> MapFault(n, form, fault, e)
  {
    if n.Mapping? {
      var f := ToMap(n.fields);
      ValuesInKeyOrder(f, form, fault, e);
      EachValueFails(Keys(f), f, read, e);
      ItemFaultIff(ValuesAt(Keys(f), f), read, form, fault, e);
    }
  }

  lemma ExplainsStrings()
    ensures Reads(Strings, FormStrings) && Explained(Strings, StringsFault)
    ensures Reads(StringMap, FormStringMap) && Explained(StringMap, StringMapFault)
  {
    ReadsStrings();
    ExplainsText();
    forall n, e ensures Strings(n) == Failure(e) <==> StringsFault(n, e) { ListFaultIff(n, StringOf, Spells, TextFault, e); }
    forall n, e ensures StringMap(n) == Failure(e) <==> StringMapFault(n, e) { MapFaultIff(n, StringOf, Spells, TextFault, e); }
  }

  lemma ExplainsHashes()
    ensures Reads(ReadHashes, FormHashes) && Explained(ReadHashes, HashesFault)
  {
    ReadsHashes();
    forall n, e ensures ReadHashes(n) == Failure(e) <==> HashesFault(n, e) {
      if n.Mapping? {
        var f := ToMap(n.fields);
        OptionalTextIff(f, "md5", e);
        OptionalTextIff(f, "sha256", e);
        UnknownFaultIff(f, {"md5", "sha256"}, e);
      }
    }
  }

  lemma ExplainsHashesMap()
    ensures Reads(ReadHashesMap, FormHashesMap) && Explained(ReadHashesMap, HashesMapFault)
  {
    ReadsHashesMap();
    ExplainsHashes();
    forall n, e ensures ReadHashesMap(n) == Failure(e) <==> HashesMapFault(n, e) {
      MapFaultIff(n, ReadHashes, FormHashes, HashesFault, e);
    }
  }

  lemma ExplainsChannel()
    ensures Reads(ReadChannel, FormChannel) && Explained(ReadChannel, ChannelFault)
  {
    ReadsChannel();
    ExplainsStrings();
    forall n, e ensures ReadChannel(n) == Failure(e) <==> ChannelFault(n, e) {
      if n.Mapping? {
        var f := ToMap(n.fields);
        TextFieldIff(f, "url", e);
        RequiredFaultIff(f, "used_env_vars", Strings, FormStrings, StringsFault, e);
        UnknownFaultIff(f, {"url", "used_env_vars"}, e);
      }
    }
  }

  lemma ExplainsTime()
    ensures Reads(ReadTime, FormTime) && Explained(ReadTime, TimeFault)
  {
    ReadsTime();
    forall n, e ensures ReadTime(n) == Failure(e) <==> TimeFault(n, e) {
      if n.Mapping? {
        TextFieldIff(ToMap(n.fields), "created_at", e);
        UnknownFaultIff(ToMap(n.fields), {"created_at"}, e);
      }
    }
  }

  lemma ExplainsGit()
    ensures Reads(ReadGit, FormGit) && Explained(ReadGit, GitFault)
  {
    ReadsGit();
    forall n, e ensures ReadGit(n) == Failure(e) <==> GitFault(n, e) {
      if n.Mapping? {
        var f := ToMap(n.fields);
        OptionalTextIff(f, "git_user_name", e);
        OptionalTextIff(f, "git_user_email", e);
        OptionalTextIff(f, "git_sha", e);
        UnknownFaultIff(f, {"git_user_name", "git_user_email", "git_sha"}, e);
      }
    }
  }

  lemma ExplainsSource()
    ensures Reads(ReadSource, FormSource) && Explained(ReadSource, SourceFault)
  {
    ReadsSource();
    forall n, e ensures ReadSource(n) == Failure(e) <==> SourceFault(n, e) {
      if n.Mapping? {
        var f := ToMap(n.fields);
        TextFieldIff(f, "type", e);
        TextFieldIff(f, "url", e);
        UnknownFaultIff(f, {"type", "url"}, e);
      }
    }
  }

  lemma IdentityFaultIff(f: Fields, e: ErrorKind)
    ensures ReadIdentity(f).Success? <==> GoodIdentity(f)
    ensures ReadIdentity(f) == Failure(e) <==> !GoodIdentity(f) && IdentityFaultIn(f, e)
  {
    GoodIdentityIff(f);
    TextFieldIff(f, "name", e);
    TextFieldIff(f, "version", e);
    TextFieldIff(f, "manager", e);
    TextFieldIff(f, "platform", e);
    if RequiredGood(f, "manager", Spells) { ManagerGood(f["manager"]); }
  }

  lemma ManagerGood(n: Raw)
    requires Good(n, Spells)
    ensures StringOf(n).Success? && Spells(n, StringOf(n).value)
    ensures Good(n, FormManager) <==> ReadManager(StringOf(n).value).Success?
  {
    ReadsSpelling();
    GoodIff(n, StringOf, Spells);
    if Spells(n, "conda") { assert FormManager(n, Conda); }
    if Spells(n, "pip") { assert FormManager(n, Pip); }
  }

  lemma GoodIdentityIff(f: Fields)
    ensures ReadIdentity(f).Success? <==> GoodIdentity(f)
  {
    if ReadIdentity(f).Success? {
      var r := ReadIdentity(f).value;
      var p := Package(r.0, r.1, r.2, r.3, map[], "", Hashes(None, None), None, None, "", false);
      IdentityIff(f, p);
    }
    if p: Package :| FormIdentity(f, p) { IdentityIff(f, p); }
  }

  lemma ArtifactFaultIff(f: Fields, e: ErrorKind)
    ensures ReadArtifact(f).Success? <==> GoodArtifact(f)
    ensures ReadArtifact(f) == Failure(e) <==> !GoodArtifact(f) && ArtifactFaultIn(f, e)
  {
    GoodArtifactIff(f);
    ExplainsStrings();
    ExplainsHashes();
    ExplainsSource();
    OptionalFaultIff(f, "dependencies", StringMap, FormStringMap, StringMapFault, e);
    TextFieldIff(f, "url", e);
    RequiredFaultIff(f, "hash", ReadHashes, FormHashes, HashesFault, e);
    OptionalFaultIff(f, "source", ReadSource, FormSource, SourceFault, e);
  }

  lemma GoodArtifactIff(f: Fields)
    ensures ReadArtifact(f).Success? <==> GoodArtifact(f)
  {
    if ReadArtifact(f).Success? {
      var r := ReadArtifact(f).value;
      var p := Package("", "", Conda, "", r.0, r.1, r.2, r.3, None, "", false);
      ArtifactIff(f, p);
    }
    if p: Package :| FormArtifact(f, p) { ArtifactIff(f, p); }
  }

  lemma InstallFaultIff(f: Fields, e: ErrorKind)
    ensures ReadInstall(f).Success? <==> GoodInstall(f)
    ensures ReadInstall(f) == Failure(e) <==> !GoodInstall(f) && InstallFaultIn(f, e)
  {
    GoodInstallIff(f);
    OptionalTextIff(f, "build", e);
    ReadsSpelling();
    if "category" in f { GoodIff(f["category"], StringOf, Spells); }
  }

  lemma GoodInstallIff(f: Fields)
    ensures ReadInstall(f).Success? <==> GoodInstall(f)
  {
    if ReadInstall(f).Success? {
      var r := ReadInstall(f).value;
      var p := Package("", "", Conda, "", map[], "", Hashes(None, None), None, r.0, r.1, r.2);
      InstallIff(f, p);
    }
    if p: Package :| FormInstall(f, p) { InstallIff(f, p); }
  }

  lemma ExplainsPackage()
    ensures Reads(ReadPackage, FormPackage) && Explained(ReadPackage, PackageFault)
  {
    ReadsPackage();
    assert PACKAGE_NAMES == PACKAGE_FIELDS;
    forall n, e ensures ReadPackage(n) == Failure(e) <==> PackageFault(n, e) {
      if n.Mapping? {
        var f := ToMap(n.fields);
        IdentityFaultIff(f, e);
        ArtifactFaultIff(f, e);
        InstallFaultIff(f, e);
        UnknownFaultIff(f, PACKAGE_FIELDS, e);
      }
    }
  }

  lemma ChannelsFaultIff(n: Raw, e: ErrorKind)
    ensures n.Sequence? && Each(n.items, ReadChannel).Success? <==> Good(n, FormChannels)
    ensures (if n.Sequence? then Each(n.items, ReadChannel) == Failure(e) else e == UnexpectedType(SequenceKind)) <==>
      ChannelsFault(n, e)
  {
    ExplainsChannel();
    ListFaultIff(n, ReadChannel, FormChannel, ChannelFault, e);
    if n.Sequence? && Each(n.items, ReadChannel).Success? {
      ListedIff(n, Each(n.items, ReadChannel).value, ReadChannel, FormChannel);
      assert FormChannels(n, Each(n.items, ReadChannel).value);
    }
    if cs :| FormChannels(n, cs) { ListedIff(n, cs, ReadChannel, FormChannel); }
  }

  lemma PackagesFaultIff(n: Raw, e: ErrorKind)
    ensures n.Sequence? && Each(n.items, ReadPackage).Success? <==> Good(n, FormPackages)
    ensures (if n.Sequence? then Each(n.items, ReadPackage) == Failure(e) else e == UnexpectedType(SequenceKind)) <==>
      PackagesFault(n, e)
  {
    ExplainsPackage();
    ListFaultIff(n, ReadPackage, FormPackage, PackageFault, e);
    if n.Sequence? && Each(n.items, ReadPackage).Success? {
      ListedIff(n, Each(n.items, ReadPackage).value, ReadPackage, FormPackage);
      assert FormPackages(n, Each(n.items, ReadPackage).value);
    }
    if ps :| FormPackages(n, ps) { ListedIff(n, ps, ReadPackage, FormPackage); }
  }

  lemma DeclaredFaultIff(f: Fields, e: ErrorKind)
    ensures ReadDeclared(f).Success? <==> GoodDeclared(f)
    ensures ReadDeclared(f) == Failure(e) <==> !GoodDeclared(f) && DeclaredFaultIn(f, e)
  {
    GoodDeclaredIff(f);
    ExplainsStrings();
    RequiredFaultIff(f, "content_hash", StringMap, FormStringMap, StringMapFault, e);
    if "channels" in f { ChannelsFaultIff(f["channels"], e); }
    RequiredFaultIff(f, "platforms", Strings, FormStrings, StringsFault, e);
    RequiredFaultIff(f, "sources", Strings, FormStrings, StringsFault, e);
  }

  lemma GoodDeclaredIff(f: Fields)
    ensures ReadDeclared(f).Success? <==> GoodDeclared(f)
  {
    if ReadDeclared(f).Success? {
      var r := ReadDeclared(f).value;
      var m := Metadata(r.0, r.1, r.2, r.3, None, None, None, None);
      DeclaredIff(f, m);
    }
    if m: Metadata :| FormDeclared(f, m) { DeclaredIff(f, m); }
  }

  lemma ProvenanceFaultIff(f: Fields, e: ErrorKind)
    ensures ReadProvenance(f).Success? <==> GoodProvenance(f)
    ensures ReadProvenance(f) == Failure(e) <==> !GoodProvenance(f) && ProvenanceFaultIn(f, e)
  {
    GoodProvenanceIff(f);
    ExplainsTime();
    ExplainsGit();
    ExplainsHashesMap();
    ExplainsStrings();
    OptionalFaultIff(f, "time_metadata", ReadTime, FormTime, TimeFault, e);
    OptionalFaultIff(f, "git_metadata", ReadGit, FormGit, GitFault, e);
    OptionalFaultIff(f, "inputs_metadata", ReadHashesMap, FormHashesMap, HashesMapFault, e);
    OptionalFaultIff(f, "custom_metadata", StringMap, FormStringMap, StringMapFault, e);
  }

  lemma GoodProvenanceIff(f: Fields)
    ensures ReadProvenance(f).Success? <==> GoodProvenance(f)
  {
    if ReadProvenance(f).Success? {
      var r := ReadProvenance(f).value;
      var m := Metadata(map[], [], [], [], r.0, r.1, r.2, r.3);
      ProvenanceIff(f, m);
    }
    if m: Metadata :| FormProvenance(f, m) { ProvenanceIff(f, m); }
  }

  lemma ExplainsMetadata()
    ensures Reads(ReadMetadata, FormMetadata) && Explained(ReadMetadata, MetadataFault)
  {
    ReadsMetadata();
    assert METADATA_NAMES == METADATA_FIELDS;
    forall n, e ensures ReadMetadata(n) == Failure(e) <==> MetadataFault(n, e) {
      if n.Mapping? {
        var f := ToMap(n.fields);
        DeclaredFaultIff(f, e);
        ProvenanceFaultIff(f, e);
        UnknownFaultIff(f, METADATA_FIELDS, e);
      }
    }
  }

  lemma LockFaultIff(n: Raw, e: ErrorKind)
    ensures ReadLock(n) == Failure(e) <==> LockFault(n, e)
  {
    if n.Mapping? {
      var f := ToMap(n.fields);
      ContentsFaultIff(f, e);
      UnknownFaultIff(f, LOCK_FIELDS, e);
      assert LOCK_FIELDS == {"version", "metadata", "package"};
    }
  }

  lemma ContentsFaultIff(f: Fields, e: ErrorKind)
    ensures ReadContents(f).Success? <==> RequiredGood(f, "metadata", FormMetadata) && RequiredGood(f, "package", FormPackages)
    ensures ReadContents(f) == Failure(e) <==>
      if !RequiredGood(f, "metadata", FormMetadata) then RequiredFault(f, "metadata", MetadataFault, e)
      else !RequiredGood(f, "package", FormPackages) && RequiredFault(f, "package", PackagesFault, e)
  {
    ExplainsMetadata();
    RequiredFaultIff(f, "metadata", ReadMetadata, FormMetadata, MetadataFault, e);
    if "package" in f { PackagesFaultIff(f["package"], e); }
  }

  // ---------------------------------------------------------------- Repeated keys are reported first

  lemma {:induction false} RepeatedIff(n: Raw, k: string)
    ensures FirstDuplicate(n) == Some(k) <==> RepeatedFirst(n, k)
    decreases n, 0
  {
    match n {
      case Mapping(fields) =>
        assert fields[0..] == fields;
        RepeatedFieldIff(fields, 0, {}, k);
      case Sequence(items) =>
        assert items[0..] == items;
        RepeatedItemIff(items, 0, k);
      case _ =>
    }
  }

  lemma {:induction false} RepeatedFieldIff(fields: seq<Field>, j: nat, seen: set<string>, k: string)
    requires j <= |fields| && (forall s :: s in seen <==> exists i :: 0 <= i < j && fields[i].key == s)
    requires Settled(fields, j)
    ensures DuplicateInFields(seen, fields[j..]) == Some(k) <==>
      exists i :: j <= i < |fields| && Settled(fields, i) &&
        if KeySeen(fields, i) then k == fields[i].key else RepeatedFirst(fields[i].value, k)
    decreases fields, |fields| - j
  {
    if j < |fields| {
      RepeatedIff(fields[j].value, k);
      DuplicateFound(fields[j].value);
      assert fields[j..][0] == fields[j] && fields[j..][1..] == fields[j + 1..];
      assert fields[j].key in seen <==> KeySeen(fields, j);
      if fields[j].key in seen || FirstDuplicate(fields[j].value).Some? {
        forall i | j < i < |fields| ensures !Settled(fields, i) { Unsettled(fields, j, i); }
      } else {
        RepeatedFieldIff(fields, j + 1, seen + {fields[j].key}, k);
      }
    }
  }

  lemma Unsettled(fields: seq<Field>, j: nat, i: nat)
    requires j < i < |fields| && (KeySeen(fields, j) || !NoDuplicates(fields[j].value))
    ensures !Settled(fields, i)
  {
  }

  lemma {:induction false} RepeatedItemIff(items: seq<Raw>, j: nat, k: string)
    requires j <= |items| && forall i :: 0 <= i < j ==> NoDuplicates(items[i])
    ensures DuplicateInItems(items[j..]) == Some(k) <==>
      exists i :: j <= i < |items| && RepeatedFirst(items[i], k) && forall h :: 0 <= h < i ==> NoDuplicates(items[h])
    decreases items, |items| - j
  {
    if j < |items| {
      RepeatedIff(items[j], k);
      DuplicateFound(items[j]);
      assert items[j..][0] == items[j] && items[j..][1..] == items[j + 1..];
      if FirstDuplicate(items[j]) == None { RepeatedItemIff(items, j + 1, k); }
    }
  }

  /** The error of every rejected document, and of no other: the first repeated key, or else the first
      fault of the lock. */
  lemma ParseFailsIff(n: Raw, e: ErrorKind)
    ensures Parse(n) == Failure(e) <==>
      if NoDuplicates(n) then LockFault(n, e) else e.DuplicateKey? && RepeatedFirst(n, e.key)
  {
    DuplicateFound(n);
    LockFaultIff(n, e);
    if e.DuplicateKey? { RepeatedIff(n, e.key); }
  }
}
