/** How a written lock and the preimage of a content hash look. A document style is described
    without the emitter: which keys stand in which order, and that nothing is left implicit. What is
    emitted is the one document of that style that reads as the canonical lock
    (crates/rattler_conda_lock/src/serialize.rs). */
module LockShape {
  import opened Orders
  import opened LockModel
  import opened LockTree
  import opened LockParser
  import opened LockRoundTrip
  import opened LockGrammar
  import opened ContentHashes

  // ---------------------------------------------------------------- The style

  /** In every mapping, however deep, the keys are strictly increasing. */
  ghost predicate KeysAscend(n: Raw) {
    match n
    case Mapping(fields) =>
      && (forall i, j :: 0 <= i < j < |fields| ==> StringLess(fields[i].key, fields[j].key))
      && (forall i :: 0 <= i < |fields| ==> KeysAscend(fields[i].value))
    case Sequence(items) => forall i :: 0 <= i < |items| ==> KeysAscend(items[i])
    case _ => true
  }

  /** Every leaf is a text: no null, and no unquoted number or boolean. */
  ghost predicate Textual(n: Raw) {
    match n
    case String(_) => true
    case Sequence(items) => forall i :: 0 <= i < |items| ==> Textual(items[i])
    case Mapping(fields) => forall i :: 0 <= i < |fields| ==> Textual(fields[i].value)
    case _ => false
  }

  ghost predicate Ordered(n: Raw) { KeysAscend(n) && Textual(n) }

  /** The keys are some of the given ones, in the given order. */
  ghost predicate Follows(fields: seq<Field>, order: seq<string>) {
    fields != [] ==>
      && order != []
      && Follows(if fields[0].key == order[0] then fields[1..] else fields, order[1..])
  }

  ghost predicate StandardBool(n: Raw) { n.Bool? ==> n.spelling == if n.truth then "true" else "false" }

  /** Keys ascend; category and dependencies are stated; only the optional flag is not a text. */
  ghost predicate StandardPackage(n: Raw) {
    && n.Mapping? && KeysAscend(n)
    && var f := ToMap(n.fields);
      && "category" in f && "dependencies" in f
      && forall k :: k in f ==> StandardBool(f[k]) && (k != "optional" ==> Textual(f[k]))
  }

  ghost predicate StandardPackages(n: Raw) {
    n.Sequence? && forall i :: 0 <= i < |n.items| ==> StandardPackage(n.items[i])
  }

  /** Every channel is an object. */
  ghost predicate Objects(n: Raw) { n.Sequence? && forall i :: 0 <= i < |n.items| ==> n.items[i].Mapping? }

  const METADATA_ORDER := ["content_hash", "channels", "platforms", "sources",
                           "time_metadata", "git_metadata", "inputs_metadata", "custom_metadata"]
  const GIT_ORDER := ["git_user_name", "git_user_email", "git_sha"]
  const LOCK_ORDER := ["version", "metadata", "package"]

  ghost predicate StandardGit(n: Raw) { n.Mapping? && Follows(n.fields, GIT_ORDER) && Textual(n) }

  ghost predicate StandardMetadata(n: Raw) {
    && n.Mapping? && Follows(n.fields, METADATA_ORDER)
    && var f := ToMap(n.fields);
      && (forall k :: k in f ==> if k == "git_metadata" then StandardGit(f[k]) else Ordered(f[k]))
      && ("channels" in f ==> Objects(f["channels"]))
  }

  ghost predicate StandardDocument(n: Raw) {
    && n.Mapping? && Follows(n.fields, LOCK_ORDER)
    && var f := ToMap(n.fields);
      && "version" in f
      && ("metadata" in f ==> StandardMetadata(f["metadata"])) && ("package" in f ==> StandardPackages(f["package"]))
  }

  // ---------------------------------------------------------------- Written structs and maps

  ghost predicate NamesAscend(fs: seq<(string, Option<Raw>)>) {
    forall i, j :: 0 <= i < j < |fs| ==> StringLess(fs[i].0, fs[j].0)
  }

  ghost predicate OptionOrdered(o: Option<Raw>) { o.Some? ==> Ordered(o.value) }
  ghost predicate OptionAscends(o: Option<Raw>) { o.Some? ==> KeysAscend(o.value) }

  /** A struct whose names ascend is written with ascending keys. */
  lemma {:induction false} PresentAscends(fs: seq<(string, Option<Raw>)>)
    requires NamesAscend(fs)
    ensures forall i, j :: 0 <= i < j < |Present(fs)| ==> StringLess(Present(fs)[i].key, Present(fs)[j].key)
  {
    if fs != [] {
      var rest := fs[1..];
      assert NamesAscend(rest);
      PresentAscends(rest);
      var head := if fs[0].1.Some? then [Field(fs[0].0, fs[0].1.value)] else [];
      assert Present(fs) == head + Present(rest);
      forall i, j | 0 <= i < j < |Present(fs)| ensures StringLess(Present(fs)[i].key, Present(fs)[j].key) {
        if i < |head| {
          PresentOccurs(rest, j - 1);
          var k :| 0 <= k < |rest| && rest[k] == (Present(rest)[j - 1].key, Some(Present(rest)[j - 1].value));
          assert fs[k + 1] == rest[k];
        }
      }
    }
  }

  lemma {:induction false} StructAscends(fs: seq<(string, Option<Raw>)>)
    requires NamesAscend(fs) && forall i :: 0 <= i < |fs| ==> OptionAscends(fs[i].1)
    ensures KeysAscend(Mapping(Present(fs)))
  {
    PresentAscends(fs);
    forall i | 0 <= i < |Present(fs)| ensures KeysAscend(Present(fs)[i].value) {
      PresentOccurs(fs, i);
      var k :| 0 <= k < |fs| && fs[k] == (Present(fs)[i].key, Some(Present(fs)[i].value));
      assert OptionAscends(fs[k].1);
    }
  }

  lemma {:induction false} StructTextual(fs: seq<(string, Option<Raw>)>)
    requires forall i :: 0 <= i < |fs| ==> OptionOrdered(fs[i].1)
    ensures Textual(Mapping(Present(fs)))
  {
    forall i | 0 <= i < |Present(fs)| ensures Textual(Present(fs)[i].value) {
      PresentOccurs(fs, i);
      var k :| 0 <= k < |fs| && fs[k] == (Present(fs)[i].key, Some(Present(fs)[i].value));
      assert OptionOrdered(fs[k].1);
    }
  }

  lemma PairOrdered(fs: seq<(string, Option<Raw>)>)
    requires |fs| == 2 && StringLess(fs[0].0, fs[1].0) && OptionOrdered(fs[0].1) && OptionOrdered(fs[1].1)
    ensures Ordered(Mapping(Present(fs)))
  {
    StructAscends(fs);
    StructTextual(fs);
  }

  /** Every entry that is read back is one of the fields. */
  lemma StructEntries(fs: seq<(string, Option<Raw>)>, k: string)
    requires DistinctNames(fs) && k in ToMap(Present(fs))
    ensures exists i :: 0 <= i < |fs| && fs[i] == (k, Some(ToMap(Present(fs))[k]))
  {
    PresentReadsBack(fs);
    var i :| 0 <= i < |fs| && fs[i].0 == k;
    assert fs[i].1 == Some(ToMap(Present(fs))[k]);
  }

  /** A struct written in the order of the given names. */
  lemma {:induction false} PresentFollows(fs: seq<(string, Option<Raw>)>, order: seq<string>)
    requires |fs| == |order| && (forall i :: 0 <= i < |fs| ==> fs[i].0 == order[i]) && DistinctNames(fs)
    ensures Follows(Present(fs), order)
  {
    if fs != [] {
      var rest := fs[1..];
      assert forall i :: 0 <= i < |rest| ==> rest[i] == fs[i + 1];
      PresentFollows(rest, order[1..]);
      if fs[0].1.Some? {
        assert Present(fs)[1..] == Present(rest);
      } else if Present(rest) != [] {
        PresentOccurs(rest, 0);
        var k :| 0 <= k < |rest| && rest[k] == (Present(rest)[0].key, Some(Present(rest)[0].value));
        assert fs[k + 1] == rest[k] && fs[k + 1].0 != fs[0].0;
        assert Present(fs) == Present(rest);
      }
    }
  }

  lemma MapOrdered<T>(m: map<string, T>, tree: T -> Raw)
    requires forall k :: k in m ==> Ordered(tree(m[k]))
    ensures Ordered(MapTree(m, tree))
  {
    var keys := Keys(m);
    forall i | 0 <= i < |keys| ensures keys[i] in m && Ordered(tree(m[keys[i]])) { assert keys[i] in keys; }
  }

  lemma HashesOrdered(h: Hashes)
    ensures Ordered(HashesTree(h))
  {
    var a, b := "md5", "sha256";
    assert a[0] < b[0];
    PairOrdered(HashesFields(h));
  }

  lemma SourceOrdered(source: Option<string>)
    ensures OptionOrdered(SourceTree(source))
  {
    var a, b := "type", "url";
    assert a[0] < b[0];
    if source.Some? { PairOrdered(SourceFields(source.value)); }
  }

  // ---------------------------------------------------------------- What is written has the style

  lemma {:induction false} PackageNamesAscend(fs: seq<(string, Option<Raw>)>, p: Package)
    requires IsPackageFields(fs, p)
    ensures NamesAscend(fs)
  {
    PackageInitials(fs, p);
    forall i, j | 0 <= i < j < |fs| ensures StringLess(fs[i].0, fs[j].0) { AscendingInitials(fs, i, j); }
  }

  lemma PackagePartsOrdered(p: Package)
    ensures Ordered(MapTree(p.dependencies, StringTree)) && Ordered(HashesTree(p.hash))
    ensures OptionOrdered(SourceTree(p.source))
  {
    MapOrdered(p.dependencies, StringTree);
    HashesOrdered(p.hash);
    SourceOrdered(p.source);
  }

  lemma {:induction false} PackageValuesAscend(fs: seq<(string, Option<Raw>)>, p: Package)
    requires IsPackageFields(fs, p)
    ensures forall i :: 0 <= i < |fs| ==> OptionAscends(fs[i].1)
  {
    PackagePartsOrdered(p);
    ElevenAscend(fs);
  }

  lemma ElevenAscend(fs: seq<(string, Option<Raw>)>)
    requires |fs| == 11
    requires OptionAscends(fs[0].1) && OptionAscends(fs[1].1) && OptionAscends(fs[2].1) && OptionAscends(fs[3].1)
    requires OptionAscends(fs[4].1) && OptionAscends(fs[5].1) && OptionAscends(fs[6].1) && OptionAscends(fs[7].1)
    requires OptionAscends(fs[8].1) && OptionAscends(fs[9].1) && OptionAscends(fs[10].1)
    ensures forall i :: 0 <= i < |fs| ==> OptionAscends(fs[i].1)
  {
  }

  ghost predicate PackageEntry(field: (string, Option<Raw>)) {
    field.1.Some? ==> StandardBool(field.1.value) && (field.0 != "optional" ==> Textual(field.1.value))
  }

  lemma {:induction false} PackageEntries(fs: seq<(string, Option<Raw>)>, p: Package)
    requires IsPackageFields(fs, p)
    ensures forall i :: 0 <= i < |fs| ==> PackageEntry(fs[i])
  {
    PackagePartsOrdered(p);
    ElevenEntries(fs);
  }

  lemma ElevenEntries(fs: seq<(string, Option<Raw>)>)
    requires |fs| == 11
    requires PackageEntry(fs[0]) && PackageEntry(fs[1]) && PackageEntry(fs[2]) && PackageEntry(fs[3])
    requires PackageEntry(fs[4]) && PackageEntry(fs[5]) && PackageEntry(fs[6]) && PackageEntry(fs[7])
    requires PackageEntry(fs[8]) && PackageEntry(fs[9]) && PackageEntry(fs[10])
    ensures forall i :: 0 <= i < |fs| ==> PackageEntry(fs[i])
  {
  }

  lemma {:induction false} PackageStandard(p: Package)
    ensures StandardPackage(PackageTree(p))
  {
    var fs := PackageFields(p);
    PackageFieldsAre(p);
    PackageNamesAscend(fs, p);
    PackageValuesAscend(fs, p);
    StructAscends(fs);
    PackageFieldsStandard(fs, p);
  }

  lemma {:induction false} PackageFieldsStandard(fs: seq<(string, Option<Raw>)>, p: Package)
    requires IsPackageFields(fs, p) && DistinctNames(fs) && KeysAscend(Mapping(Present(fs)))
    ensures StandardPackage(Mapping(Present(fs)))
  {
    var f := ToMap(Present(fs));
    PresentReadsBack(fs);
    assert fs[1].0 in f && fs[2].0 in f;
    PackageEntries(fs, p);
    forall k | k in f ensures StandardBool(f[k]) && (k != "optional" ==> Textual(f[k])) {
      StructEntries(fs, k);
      var i :| 0 <= i < |fs| && fs[i] == (k, Some(f[k]));
      assert PackageEntry(fs[i]);
    }
  }

  lemma PackagesStandard(ps: seq<Package>)
    ensures StandardPackages(PackageListTree(ps))
  {
    forall i | 0 <= i < |ps| { PackageStandard(ps[i]); }
  }

  lemma ChannelsStandard(cs: seq<Channel>)
    ensures Ordered(ChannelsTree(cs)) && Objects(ChannelsTree(cs))
  {
    var a, b := "url", "used_env_vars";
    assert a[0] == b[0] && a[1] < b[1];
    forall i | 0 <= i < |cs| ensures Ordered(ChannelsTree(cs).items[i]) {
      var fs := ChannelFields(cs[i]);
      assert a[1..][0] == a[1] && b[1..][0] == b[1];
      PairOrdered(fs);
    }
  }

  lemma GitStandard(g: GitMetadata)
    ensures StandardGit(Mapping(Present(GitFields(g))))
  {
    var fs := GitFields(g);
    assert fs[0].0 == GIT_ORDER[0] && fs[1].0 == GIT_ORDER[1] && fs[2].0 == GIT_ORDER[2];
    PresentFollows(fs, GIT_ORDER);
    StructTextual(fs);
  }

  lemma TimeOrdered(createdAt: Option<string>)
    ensures OptionOrdered(TimeTree(createdAt))
  {
    if createdAt.Some? {
      StructAscends(TimeFields(createdAt.value));
      StructTextual(TimeFields(createdAt.value));
    }
  }

  lemma InputsOrdered(inputs: Option<map<string, Hashes>>, custom: Option<map<string, string>>)
    ensures OptionOrdered(InputsTree(inputs)) && OptionOrdered(CustomTree(custom))
  {
    if inputs.Some? {
      forall k | k in inputs.value { HashesOrdered(inputs.value[k]); }
      MapOrdered(inputs.value, HashesTree);
    }
    if custom.Some? { MapOrdered(custom.value, StringTree); }
  }

  ghost predicate MetadataEntry(field: (string, Option<Raw>)) {
    field.1.Some? ==> if field.0 == "git_metadata" then StandardGit(field.1.value) else Ordered(field.1.value)
  }

  lemma {:induction false} MetadataEntries(fs: seq<(string, Option<Raw>)>, m: Metadata)
    requires IsMetadataFields(fs, m) && DistinctNames(fs)
    ensures forall i :: 0 <= i < |fs| ==> MetadataEntry(fs[i])
  {
    MapOrdered(m.contentHash, LowercaseTree);
    ChannelsStandard(m.channels);
    TimeOrdered(m.createdAt);
    if m.git.Some? { GitStandard(m.git.value); }
    InputsOrdered(m.inputs, m.custom);
    forall i | 0 <= i < |fs| && i != 5 ensures fs[i].0 != "git_metadata" {
      assert fs[i].0 != fs[5].0;
    }
    EightEntries(fs);
  }

  lemma EightEntries(fs: seq<(string, Option<Raw>)>)
    requires |fs| == 8
    requires MetadataEntry(fs[0]) && MetadataEntry(fs[1]) && MetadataEntry(fs[2]) && MetadataEntry(fs[3])
    requires MetadataEntry(fs[4]) && MetadataEntry(fs[5]) && MetadataEntry(fs[6]) && MetadataEntry(fs[7])
    ensures forall i :: 0 <= i < |fs| ==> MetadataEntry(fs[i])
  {
  }

  lemma {:induction false} MetadataStandard(m: Metadata)
    ensures StandardMetadata(Mapping(Present(MetadataFields(m))))
  {
    MetadataFieldsAre(m);
    MetadataFieldsStandard(MetadataFields(m), m);
  }

  lemma {:induction false} MetadataInOrder(fs: seq<(string, Option<Raw>)>, m: Metadata)
    requires IsMetadataFields(fs, m) && DistinctNames(fs)
    ensures Follows(Present(fs), METADATA_ORDER)
  {
    PresentFollows(fs, METADATA_ORDER);
  }

  lemma {:induction false} MetadataFieldsStandard(fs: seq<(string, Option<Raw>)>, m: Metadata)
    requires IsMetadataFields(fs, m) && DistinctNames(fs)
    ensures StandardMetadata(Mapping(Present(fs)))
  {
    var f := ToMap(Present(fs));
    MetadataInOrder(fs, m);
    PresentReadsBack(fs);
    ChannelsStandard(m.channels);
    assert f[fs[1].0] == ChannelsTree(m.channels);
    MetadataEntries(fs, m);
    forall k | k in f ensures if k == "git_metadata" then StandardGit(f[k]) else Ordered(f[k]) {
      StructEntries(fs, k);
      var i :| 0 <= i < |fs| && fs[i] == (k, Some(f[k]));
      assert MetadataEntry(fs[i]);
    }
  }

  lemma {:induction false} DocumentStandard(l: LockFile)
    ensures StandardDocument(LockTreeOf(l))
  {
    var fs := LockFields(l);
    LockLookups(l, ToMap(Present(fs)));
    assert fs[0].0 == "version" && fs[1].0 == "metadata" && fs[2].0 == "package";
    PresentFollows(fs, LOCK_ORDER);
    MetadataStandard(l.metadata);
    PackagesStandard(Sort(PackageLess, l.package));
  }

  // ---------------------------------------------------------------- One document for one lock

  function FieldKeys(fields: seq<Field>): seq<string> {
    seq(|fields|, i requires 0 <= i < |fields| => fields[i].key)
  }

  lemma FieldKeysAre(fields: seq<Field>, k: string)
    ensures k in FieldKeys(fields) <==> k in ToMap(fields)
  {
    ToMapKeys(fields, k);
    var keys := FieldKeys(fields);
    assert forall i :: 0 <= i < |fields| ==> keys[i] == fields[i].key;
  }

  lemma {:induction false} SameKeysSameFields(a: seq<Field>, b: seq<Field>)
    requires FieldKeys(a) == FieldKeys(b) && ToMap(a) == ToMap(b)
    requires forall i, j :: 0 <= i < j < |a| ==> a[i].key != a[j].key
    ensures a == b
  {
    assert |a| == |FieldKeys(a)| == |FieldKeys(b)| == |b|;
    forall i | 0 <= i < |a| ensures a[i].key == b[i].key {
      assert FieldKeys(a)[i] == a[i].key && FieldKeys(b)[i] == b[i].key;
    }
    ToMapMeans(a);
    ToMapMeans(b);
    forall i | 0 <= i < |a| ensures a[i] == b[i] {
      assert ToMap(a)[a[i].key] == a[i].value && ToMap(b)[b[i].key] == b[i].value;
    }
  }

  /** Entries in ascending order are determined by the map they form. */
  lemma {:induction false} SameAscending(a: seq<Field>, b: seq<Field>)
    requires KeysAscend(Mapping(a)) && KeysAscend(Mapping(b)) && ToMap(a) == ToMap(b)
    ensures a == b
  {
    StringOrder();
    var s, t := FieldKeys(a), FieldKeys(b);
    forall k ensures k in s <==> k in t {
      FieldKeysAre(a, k);
      FieldKeysAre(b, k);
    }
    assert Increasing(StringLess, s) && Increasing(StringLess, t);
    IncreasingUnique(StringLess, s, t);
    SameKeysSameFields(a, b);
  }

  lemma {:induction false} FollowersAmong(fields: seq<Field>, order: seq<string>, k: string)
    requires Follows(fields, order) && k in ToMap(fields)
    ensures k in order
    decreases |order|
  {
    assert order == [order[0]] + order[1..];
    if k != order[0] { FollowersAmong(if fields[0].key == order[0] then fields[1..] else fields, order[1..], k); }
  }

  /** So are entries that follow an order without repetition. */
  lemma {:induction false} SameFollowers(a: seq<Field>, b: seq<Field>, order: seq<string>)
    requires Follows(a, order) && Follows(b, order) && ToMap(a) == ToMap(b)
    requires forall i, j :: 0 <= i < j < |order| ==> order[i] != order[j]
    ensures a == b
    decreases |order|
  {
    if a != [] { NotEmpty(a); }
    if b != [] { NotEmpty(b); }
    if a != [] && b != [] {
      var k, rest := order[0], order[1..];
      assert k !in rest;
      HeadFollows(a, order);
      HeadFollows(b, order);
      if a[0].key == k {
        assert ToMap(a[1..]) == ToMap(a) - {k} && ToMap(b[1..]) == ToMap(b) - {k};
        SameFollowers(a[1..], b[1..], rest);
        assert a == [a[0]] + a[1..] && b == [b[0]] + b[1..];
      } else {
        SameFollowers(a, b, rest);
      }
    }
  }

  lemma NotEmpty(fields: seq<Field>)
    requires fields != []
    ensures ToMap(fields) != map[]
  {
    ToMapKeys(fields, fields[0].key);
  }

  /** The first key of an order, if it occurs, comes first and only there. */
  lemma HeadFollows(fields: seq<Field>, order: seq<string>)
    requires fields != [] && Follows(fields, order) && order[0] !in order[1..]
    ensures order[0] in ToMap(fields) <==> fields[0].key == order[0]
    ensures fields[0].key == order[0] ==> order[0] !in ToMap(fields[1..])
  {
    if fields[0].key == order[0] {
      if order[0] in ToMap(fields[1..]) { FollowersAmong(fields[1..], order[1..], order[0]); }
    } else if order[0] in ToMap(fields) {
      FollowersAmong(fields, order[1..], order[0]);
    }
  }

  lemma OrderedInside(n: Raw)
    requires Ordered(n) && n.Mapping?
    ensures forall k :: k in ToMap(n.fields) ==> Ordered(ToMap(n.fields)[k])
  {
    StringOrder();
    ToMapMeans(n.fields);
  }

  /** At most one ordered tree has a given form and value. */
  ghost predicate Decides<T(!new)>(form: Form<T>) {
    forall a, b, x :: form(a, x) && form(b, x) && Ordered(a) && Ordered(b) ==> a == b
  }

  lemma SpellingDecides()
    ensures Decides(Spells)
  {
  }

  lemma ListDecides<T(!new)>(a: Raw, b: Raw, values: seq<T>, form: Form<T>)
    requires Decides(form) && Listed(a, values, form) && Listed(b, values, form) && Ordered(a) && Ordered(b)
    ensures a == b
  {
    forall i | 0 <= i < |values| ensures a.items[i] == b.items[i] {
      assert form(a.items[i], values[i]) && form(b.items[i], values[i]);
    }
  }

  lemma MapDecides<T(!new)>(a: Raw, b: Raw, m: map<string, T>, form: Form<T>)
    requires Decides(form) && Mapped(a, m, form) && Mapped(b, m, form) && Ordered(a) && Ordered(b)
    ensures a == b
  {
    OrderedInside(a);
    OrderedInside(b);
    forall k | k in m ensures ToMap(a.fields)[k] == ToMap(b.fields)[k] {
      assert form(ToMap(a.fields)[k], m[k]) && form(ToMap(b.fields)[k], m[k]);
    }
    SameAscending(a.fields, b.fields);
  }

  ghost predicate SameField(f: Fields, g: Fields, k: string) {
    (k in f <==> k in g) && (k in f && k in g ==> f[k] == g[k])
  }

  lemma OptionalDecides<T(!new)>(f: Fields, g: Fields, name: string, o: Option<T>, form: Form<T>)
    requires Decides(form) && OptionalIs(f, name, o, form) && OptionalIs(g, name, o, form)
    requires (name in f ==> Ordered(f[name])) && (name in g ==> Ordered(g[name]))
    ensures SameField(f, g, name)
  {
  }

  lemma RequiredDecides<T(!new)>(f: Fields, g: Fields, name: string, x: T, form: Form<T>)
    requires Decides(form) && RequiredIs(f, name, x, form) && RequiredIs(g, name, x, form)
    requires Ordered(f[name]) && Ordered(g[name])
    ensures SameField(f, g, name)
  {
  }

  lemma SameStruct(f: Fields, g: Fields, known: set<string>)
    requires OnlyFields(f, known) && OnlyFields(g, known) && forall k :: k in known ==> SameField(f, g, k)
    ensures f == g
  {
    forall k ensures SameField(f, g, k) { if k in f || k in g { assert k in known; } }
  }

  lemma StringsDecide()
    ensures Decides(FormStrings) && Decides(FormStringMap)
  {
    SpellingDecides();
    forall a, b, s | FormStrings(a, s) && FormStrings(b, s) && Ordered(a) && Ordered(b) ensures a == b {
      ListDecides(a, b, s, Spells);
    }
    forall a, b, m | FormStringMap(a, m) && FormStringMap(b, m) && Ordered(a) && Ordered(b) ensures a == b {
      MapDecides(a, b, m, Spells);
    }
  }

  lemma HashesDecide()
    ensures Decides(FormHashes)
  {
    SpellingDecides();
    forall a, b, h | FormHashes(a, h) && FormHashes(b, h) && Ordered(a) && Ordered(b) ensures a == b {
      OrderedInside(a);
      OrderedInside(b);
      OptionalDecides(ToMap(a.fields), ToMap(b.fields), "md5", h.md5, Spells);
      OptionalDecides(ToMap(a.fields), ToMap(b.fields), "sha256", h.sha256, Spells);
      SameStruct(ToMap(a.fields), ToMap(b.fields), {"md5", "sha256"});
      SameAscending(a.fields, b.fields);
    }
  }

  lemma HashesMapDecides()
    ensures Decides(FormHashesMap)
  {
    HashesDecide();
    forall a, b, m | FormHashesMap(a, m) && FormHashesMap(b, m) && Ordered(a) && Ordered(b) ensures a == b {
      MapDecides(a, b, m, FormHashes);
    }
  }

  lemma SourceDecides()
    ensures Decides(FormSource)
  {
    SpellingDecides();
    forall a, b, s | FormSource(a, s) && FormSource(b, s) && Ordered(a) && Ordered(b) ensures a == b {
      OrderedInside(a);
      OrderedInside(b);
      RequiredDecides(ToMap(a.fields), ToMap(b.fields), "type", "url", Spells);
      RequiredDecides(ToMap(a.fields), ToMap(b.fields), "url", s, Spells);
      SameStruct(ToMap(a.fields), ToMap(b.fields), {"type", "url"});
      SameAscending(a.fields, b.fields);
    }
  }

  lemma TimeDecides()
    ensures Decides(FormTime)
  {
    SpellingDecides();
    forall a, b, s | FormTime(a, s) && FormTime(b, s) && Ordered(a) && Ordered(b) ensures a == b {
      OrderedInside(a);
      OrderedInside(b);
      RequiredDecides(ToMap(a.fields), ToMap(b.fields), "created_at", s, Spells);
      SameStruct(ToMap(a.fields), ToMap(b.fields), {"created_at"});
      SameAscending(a.fields, b.fields);
    }
  }

  ghost predicate FormObject(n: Raw, c: Channel) { FormChannel(n, c) && n.Mapping? }
  ghost predicate FormObjects(n: Raw, cs: seq<Channel>) { Listed(n, cs, FormObject) }

  lemma ChannelDecides()
    ensures Decides(FormObject)
  {
    SpellingDecides();
    StringsDecide();
    forall a, b, c | FormObject(a, c) && FormObject(b, c) && Ordered(a) && Ordered(b) ensures a == b {
      OrderedInside(a);
      OrderedInside(b);
      RequiredDecides(ToMap(a.fields), ToMap(b.fields), "url", c.url, Spells);
      RequiredDecides(ToMap(a.fields), ToMap(b.fields), "used_env_vars", c.usedEnvVars, FormStrings);
      SameStruct(ToMap(a.fields), ToMap(b.fields), {"url", "used_env_vars"});
      SameAscending(a.fields, b.fields);
    }
  }

  lemma ChannelsDecide(a: Raw, b: Raw, cs: seq<Channel>)
    requires FormChannels(a, cs) && FormChannels(b, cs) && Objects(a) && Objects(b) && Ordered(a) && Ordered(b)
    ensures a == b
  {
    ChannelDecides();
    ListDecides(a, b, cs, FormObject);
  }

  /** Git fields follow their own order. */
  lemma GitDecides(a: Raw, b: Raw, g: GitMetadata)
    requires FormGit(a, g) && FormGit(b, g) && StandardGit(a) && StandardGit(b)
    ensures a == b
  {
    SpellingDecides();
    TextualInside(a.fields);
    TextualInside(b.fields);
    var f, h := ToMap(a.fields), ToMap(b.fields);
    GitTexts(f, g);
    GitTexts(h, g);
    OptionalDecides(f, h, "git_user_name", g.userName, Spells);
    OptionalDecides(f, h, "git_user_email", g.userEmail, Spells);
    OptionalDecides(f, h, "git_sha", g.sha, Spells);
    SameStruct(f, h, {"git_user_name", "git_user_email", "git_sha"});
    SameFollowers(a.fields, b.fields, GIT_ORDER);
  }

  lemma {:induction false} TextualInside(fields: seq<Field>)
    requires Textual(Mapping(fields))
    ensures forall k :: k in ToMap(fields) ==> Textual(ToMap(fields)[k])
  {
    if fields != [] { TextualInside(fields[1..]); }
  }

  lemma GitTexts(f: Fields, g: GitMetadata)
    requires forall k :: k in f ==> Textual(f[k])
    requires OptionalIs(f, "git_user_name", g.userName, Spells) && OptionalIs(f, "git_user_email", g.userEmail, Spells)
    requires OptionalIs(f, "git_sha", g.sha, Spells)
    requires OnlyFields(f, {"git_user_name", "git_user_email", "git_sha"})
    ensures forall k :: k in f ==> Ordered(f[k])
  {
  }

  lemma NotTheFlag()
    ensures "build" != "optional" && "category" != "optional" && "dependencies" != "optional" && "hash" != "optional"
    ensures "manager" != "optional" && "name" != "optional" && "platform" != "optional" && "source" != "optional"
    ensures "url" != "optional" && "version" != "optional"
  {
    var category, platform, optional := "category", "platform", "optional";
    assert category[0] != optional[0] && platform[0] != optional[0];
  }

  ghost predicate OrderedField(f: Fields, k: string) { k in f ==> Ordered(f[k]) }

  ghost predicate PackageTextsOrdered(f: Fields) {
    && OrderedField(f, "build") && OrderedField(f, "category") && OrderedField(f, "dependencies")
    && OrderedField(f, "hash") && OrderedField(f, "manager") && OrderedField(f, "name")
    && OrderedField(f, "platform") && OrderedField(f, "source") && OrderedField(f, "url") && OrderedField(f, "version")
  }

  lemma {:induction false} PackageInside(n: Raw)
    requires StandardPackage(n)
    ensures PackageTextsOrdered(ToMap(n.fields))
    ensures forall i, j :: 0 <= i < j < |n.fields| ==> n.fields[i].key != n.fields[j].key
  {
    StringOrder();
    ToMapMeans(n.fields);
    NotTheFlag();
    var f := ToMap(n.fields);
    forall k | k in f ensures k != "optional" ==> OrderedField(f, k) {
      var i :| 0 <= i < |n.fields| && n.fields[i].key == k;
    }
  }

  lemma IdentityDecided(f: Fields, g: Fields, p: Package)
    requires FormIdentity(f, p) && FormIdentity(g, p) && PackageTextsOrdered(f) && PackageTextsOrdered(g)
    ensures SameField(f, g, "name") && SameField(f, g, "version")
    ensures SameField(f, g, "manager") && SameField(f, g, "platform")
  {
  }

  lemma ArtifactDecided(f: Fields, g: Fields, p: Package)
    requires FormArtifact(f, p) && FormArtifact(g, p) && PackageTextsOrdered(f) && PackageTextsOrdered(g)
    requires "dependencies" in f && "dependencies" in g
    ensures SameField(f, g, "dependencies") && SameField(f, g, "url")
    ensures SameField(f, g, "hash") && SameField(f, g, "source")
  {
    SpellingDecides();
    StringsDecide();
    HashesDecide();
    SourceDecides();
    RequiredDecides(f, g, "dependencies", p.dependencies, FormStringMap);
    RequiredDecides(f, g, "url", p.url, Spells);
    RequiredDecides(f, g, "hash", p.hash, FormHashes);
    OptionalDecides(f, g, "source", p.source, FormSource);
  }

  lemma InstallDecided(f: Fields, g: Fields, p: Package)
    requires FormInstall(f, p) && FormInstall(g, p) && PackageTextsOrdered(f) && PackageTextsOrdered(g)
    requires "category" in f && "category" in g && StandardBool(f["optional"]) && StandardBool(g["optional"])
    ensures SameField(f, g, "build") && SameField(f, g, "category") && SameField(f, g, "optional")
  {
    SpellingDecides();
    OptionalDecides(f, g, "build", p.build, Spells);
  }

  lemma {:induction false} PackageFieldsDecided(f: Fields, g: Fields)
    requires SameField(f, g, "name") && SameField(f, g, "version")
    requires SameField(f, g, "manager") && SameField(f, g, "platform")
    requires SameField(f, g, "dependencies") && SameField(f, g, "url")
    requires SameField(f, g, "hash") && SameField(f, g, "source")
    requires SameField(f, g, "build") && SameField(f, g, "category") && SameField(f, g, "optional")
    requires OnlyFields(f, PACKAGE_NAMES) && OnlyFields(g, PACKAGE_NAMES)
    ensures f == g
  {
    SameStruct(f, g, PACKAGE_NAMES);
  }

  lemma {:induction false} PackageDecides(a: Raw, b: Raw, p: Package)
    requires FormPackage(a, p) && FormPackage(b, p) && StandardPackage(a) && StandardPackage(b)
    ensures a == b
  {
    var f, g := ToMap(a.fields), ToMap(b.fields);
    PackageInside(a);
    PackageInside(b);
    IdentityDecided(f, g, p);
    ArtifactDecided(f, g, p);
    InstallDecided(f, g, p);
    PackageFieldsDecided(f, g);
    SameAscending(a.fields, b.fields);
  }

  lemma PackagesDecide(a: Raw, b: Raw, ps: seq<Package>)
    requires FormPackages(a, ps) && FormPackages(b, ps) && StandardPackages(a) && StandardPackages(b)
    ensures a == b
  {
    forall i | 0 <= i < |ps| ensures a.items[i] == b.items[i] { PackageDecides(a.items[i], b.items[i], ps[i]); }
  }

  ghost predicate MetadataOrdered(f: Fields) {
    && OrderedField(f, "content_hash") && OrderedField(f, "channels") && OrderedField(f, "platforms")
    && OrderedField(f, "sources") && OrderedField(f, "time_metadata") && OrderedField(f, "inputs_metadata")
    && OrderedField(f, "custom_metadata")
  }

  lemma NotGit()
    ensures "content_hash" != "git_metadata" && "channels" != "git_metadata" && "platforms" != "git_metadata"
    ensures "sources" != "git_metadata" && "time_metadata" != "git_metadata"
    ensures "inputs_metadata" != "git_metadata" && "custom_metadata" != "git_metadata"
  {
    var hash, git := "content_hash", "git_metadata";
    assert hash[0] != git[0];
  }

  lemma MetadataInside(f: Fields)
    requires forall k :: k in f ==> if k == "git_metadata" then StandardGit(f[k]) else Ordered(f[k])
    ensures MetadataOrdered(f) && ("git_metadata" in f ==> StandardGit(f["git_metadata"]))
  {
    NotGit();
  }

  lemma DeclaredDecided(f: Fields, g: Fields, m: Metadata)
    requires FormDeclared(f, m) && FormDeclared(g, m) && MetadataOrdered(f) && MetadataOrdered(g)
    requires Objects(f["channels"]) && Objects(g["channels"])
    ensures SameField(f, g, "content_hash") && SameField(f, g, "channels")
    ensures SameField(f, g, "platforms") && SameField(f, g, "sources")
  {
    StringsDecide();
    RequiredDecides(f, g, "content_hash", m.contentHash, FormStringMap);
    ChannelsDecide(f["channels"], g["channels"], m.channels);
    RequiredDecides(f, g, "platforms", m.platforms, FormStrings);
    RequiredDecides(f, g, "sources", m.sources, FormStrings);
  }

  lemma ProvenanceDecided(f: Fields, g: Fields, m: Metadata)
    requires FormProvenance(f, m) && FormProvenance(g, m) && MetadataOrdered(f) && MetadataOrdered(g)
    requires ("git_metadata" in f ==> StandardGit(f["git_metadata"])) && ("git_metadata" in g ==> StandardGit(g["git_metadata"]))
    ensures SameField(f, g, "time_metadata") && SameField(f, g, "git_metadata")
    ensures SameField(f, g, "inputs_metadata") && SameField(f, g, "custom_metadata")
  {
    TimeDecides();
    HashesMapDecides();
    StringsDecide();
    OptionalDecides(f, g, "time_metadata", m.createdAt, FormTime);
    OptionalDecides(f, g, "inputs_metadata", m.inputs, FormHashesMap);
    OptionalDecides(f, g, "custom_metadata", m.custom, FormStringMap);
    if "git_metadata" in f && "git_metadata" in g { GitDecides(f["git_metadata"], g["git_metadata"], m.git.value); }
  }

  lemma {:induction false} MetadataFieldsDecided(f: Fields, g: Fields)
    requires SameField(f, g, "content_hash") && SameField(f, g, "channels")
    requires SameField(f, g, "platforms") && SameField(f, g, "sources")
    requires SameField(f, g, "time_metadata") && SameField(f, g, "git_metadata")
    requires SameField(f, g, "inputs_metadata") && SameField(f, g, "custom_metadata")
    requires OnlyFields(f, METADATA_NAMES) && OnlyFields(g, METADATA_NAMES)
    ensures f == g
  {
    SameStruct(f, g, METADATA_NAMES);
  }

  lemma {:induction false} MetadataDecides(a: Raw, b: Raw, m: Metadata)
    requires FormMetadata(a, m) && FormMetadata(b, m) && StandardMetadata(a) && StandardMetadata(b)
    ensures a == b
  {
    var f, g := ToMap(a.fields), ToMap(b.fields);
    MetadataInside(f);
    MetadataInside(g);
    DeclaredDecided(f, g, m);
    ProvenanceDecided(f, g, m);
    MetadataFieldsDecided(f, g);
    SameMetadata(a.fields, b.fields);
  }

  lemma {:induction false} SameMetadata(a: seq<Field>, b: seq<Field>)
    requires Follows(a, METADATA_ORDER) && Follows(b, METADATA_ORDER) && ToMap(a) == ToMap(b)
    ensures a == b
  {
    var order := METADATA_ORDER;
    assert |order[0]| == 12 && |order[1]| == 8 && |order[2]| == 9 && |order[3]| == 7;
    assert |order[4]| == 13 && |order[5]| == 12 && |order[6]| == 15 && |order[7]| == 15;
    assert order[0][0] != order[5][0] && order[6][0] != order[7][0];
    SameFollowers(a, b, order);
  }

  lemma {:induction false} LockFieldsDecided(f: Fields, g: Fields)
    requires SameField(f, g, "version") && SameField(f, g, "metadata") && SameField(f, g, "package")
    requires OnlyFields(f, {"version", "metadata", "package"}) && OnlyFields(g, {"version", "metadata", "package"})
    ensures f == g
  {
    SameStruct(f, g, {"version", "metadata", "package"});
  }

  lemma {:induction false} SameLock(a: seq<Field>, b: seq<Field>)
    requires Follows(a, LOCK_ORDER) && Follows(b, LOCK_ORDER) && ToMap(a) == ToMap(b)
    ensures a == b
  {
    var order := LOCK_ORDER;
    assert |order[0]| == 7 && |order[1]| == 8 && |order[2]| == 7 && order[0][0] != order[2][0];
    SameFollowers(a, b, order);
  }

  /** Two documents of the style that stand for the same lock are the same. */
  lemma {:induction false} DocumentDecides(a: Raw, b: Raw, l: LockFile)
    requires FormLock(a, l) && FormLock(b, l) && StandardDocument(a) && StandardDocument(b)
    ensures a == b
  {
    var f, g := ToMap(a.fields), ToMap(b.fields);
    MetadataDecides(f["metadata"], g["metadata"], l.metadata);
    PackagesDecide(f["package"], g["package"], l.package);
    LockFieldsDecided(f, g);
    SameLock(a.fields, b.fields);
  }

  /** What is written for a lock is the one document of the style that parses to its canonical form. */
  lemma {:induction false} WrittenIff(n: Raw, l: LockFile)
    ensures n == LockTreeOf(l) <==> StandardDocument(n) && Parse(n) == Success(Canonical(l))
  {
    DocumentStandard(l);
    RoundTrip(l);
    ParseIff(LockTreeOf(l), Canonical(l));
    ParseIff(n, Canonical(l));
    if StandardDocument(n) && Parse(n) == Success(Canonical(l)) { DocumentDecides(n, LockTreeOf(l), Canonical(l)); }
  }

  // ---------------------------------------------------------------- The preimage

  /** What is hashed for a platform is the one list of objects of the style that reads as the
      platform's packages in canonical order. */
  lemma {:induction false} PreimageIff(n: Raw, l: LockFile, platform: string)
    ensures n == Preimage(l, platform) <==>
      && StandardPackages(n)
      && Each(n.items, ReadPackage) == Success(CanonicalPackages(HashedPackages(l, platform)))
  {
    var ps := HashedPackages(l, platform);
    PackagesStandard(ps);
    PackagesReadBack(ps);
    ReadsPackage();
    ListedIff(PackageListTree(ps), CanonicalPackages(ps), ReadPackage, FormPackage);
    ListedIff(n, CanonicalPackages(ps), ReadPackage, FormPackage);
    if StandardPackages(n) && Each(n.items, ReadPackage) == Success(CanonicalPackages(ps)) {
      PackagesDecide(n, PackageListTree(ps), CanonicalPackages(ps));
    }
  }

  /** The keys of every mapping in what is hashed are strictly increasing. */
  lemma PreimageKeysAscend(l: LockFile, platform: string)
    ensures KeysAscend(Preimage(l, platform))
  {
    PackagesStandard(HashedPackages(l, platform));
  }
}
