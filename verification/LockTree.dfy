/** Canonical emission of a lock file as a tree of YAML nodes
    (crates/rattler_conda_lock/src/serialize.rs). */
module LockTree {
  import opened Orders
  import opened LockModel

  /** A YAML value; numbers and booleans also keep the spelling found in the source. */
  datatype Raw =
    | Null
    | String(text: string)
    | Number(number: string, spelling: string)
    | Bool(truth: bool, spelling: string)
    | Sequence(items: seq<Raw>)
    | Mapping(fields: seq<Field>)

  datatype Field = Field(key: string, value: Raw)

  /** A struct is written field by field; absent optional fields are left out. */
  function Present(fields: seq<(string, Option<Raw>)>): seq<Field> {
    if fields == [] then []
    else (if fields[0].1.Some? then [Field(fields[0].0, fields[0].1.value)] else []) + Present(fields[1..])
  }

  function Text(s: string): Option<Raw> { Some(String(s)) }
  function TextOption(o: Option<string>): Option<Raw> { if o.Some? then Some(String(o.value)) else None }

  function StringsTree(s: seq<string>): Raw { Sequence(seq(|s|, i requires 0 <= i < |s| => String(s[i]))) }

  /** Maps are written in key order. */
  function MapTree<T>(m: map<string, T>, tree: T -> Raw): Raw {
    var keys := Keys(m);
    Mapping(seq(|keys|, i requires 0 <= i < |keys| => assert keys[i] in keys; Field(keys[i], tree(m[keys[i]]))))
  }

  function LowercaseTree(s: string): Raw { String(Lowercase(s)) }
  function StringTree(s: string): Raw { String(s) }

  function HashesFields(h: Hashes): seq<(string, Option<Raw>)> {
    [("md5", TextOption(LowercaseOption(h.md5))), ("sha256", TextOption(LowercaseOption(h.sha256)))]
  }

  function HashesTree(h: Hashes): Raw { Mapping(Present(HashesFields(h))) }

  function SourceFields(url: string): seq<(string, Option<Raw>)> {
    [("type", Text("url")), ("url", Text(url))]
  }

  function SourceTree(source: Option<string>): Option<Raw> {
    if source.Some? then Some(Mapping(Present(SourceFields(source.value)))) else None
  }

  function BoolTree(b: bool): Raw { Bool(b, if b then "true" else "false") }

  function ManagerName(m: Manager): string { if m == Conda then "conda" else "pip" }

  function PackageFields(p: Package): seq<(string, Option<Raw>)> {
    [("build", TextOption(p.build)),
     ("category", Text(p.category)),
     ("dependencies", Some(MapTree(p.dependencies, StringTree))),
     ("hash", Some(HashesTree(p.hash))),
     ("manager", Text(ManagerName(p.manager))),
     ("name", Text(p.name)),
     ("optional", Some(BoolTree(p.optional))),
     ("platform", Text(p.platform)),
     ("source", SourceTree(p.source)),
     ("url", Text(p.url)),
     ("version", Text(p.version))]
  }

  function PackageTree(p: Package): Raw { Mapping(Present(PackageFields(p))) }

  function PackageListTree(ps: seq<Package>): Raw {
    Sequence(seq(|ps|, i requires 0 <= i < |ps| => PackageTree(ps[i])))
  }

  function ChannelFields(c: Channel): seq<(string, Option<Raw>)> {
    [("url", Text(c.url)), ("used_env_vars", Some(StringsTree(c.usedEnvVars)))]
  }

  function ChannelsTree(cs: seq<Channel>): Raw {
    Sequence(seq(|cs|, i requires 0 <= i < |cs| => Mapping(Present(ChannelFields(cs[i])))))
  }

  function GitFields(g: GitMetadata): seq<(string, Option<Raw>)> {
    [("git_user_name", TextOption(g.userName)), ("git_user_email", TextOption(g.userEmail)), ("git_sha", TextOption(g.sha))]
  }

  function TimeFields(createdAt: string): seq<(string, Option<Raw>)> { [("created_at", Text(createdAt))] }

  function TimeTree(createdAt: Option<string>): Option<Raw> {
    if createdAt.Some? then Some(Mapping(Present(TimeFields(createdAt.value)))) else None
  }

  function GitTree(g: Option<GitMetadata>): Option<Raw> {
    if g.Some? then Some(Mapping(Present(GitFields(g.value)))) else None
  }

  function InputsTree(m: Option<map<string, Hashes>>): Option<Raw> {
    if m.Some? then Some(MapTree(m.value, HashesTree)) else None
  }

  function CustomTree(m: Option<map<string, string>>): Option<Raw> {
    if m.Some? then Some(MapTree(m.value, StringTree)) else None
  }

  function MetadataFields(m: Metadata): seq<(string, Option<Raw>)> {
    [("content_hash", Some(MapTree(m.contentHash, LowercaseTree))),
     ("channels", Some(ChannelsTree(m.channels))),
     ("platforms", Some(StringsTree(Sort(StringLess, m.platforms)))),
     ("sources", Some(StringsTree(m.sources))),
     ("time_metadata", TimeTree(m.createdAt)),
     ("git_metadata", GitTree(m.git)),
     ("inputs_metadata", InputsTree(m.inputs)),
     ("custom_metadata", CustomTree(m.custom))]
  }

  function LockFields(l: LockFile): seq<(string, Option<Raw>)> {
    [("version", Some(Number("1", "1"))),
     ("metadata", Some(Mapping(Present(MetadataFields(l.metadata))))),
     ("package", Some(PackageListTree(Sort(PackageLess, l.package))))]
  }

  /** The document that is written. */
  function LockTreeOf(l: LockFile): Raw { Mapping(Present(LockFields(l))) }

  // ---------------------------------------------------------------- Reading a struct back

  /** Entries as a map; of repeated keys the last wins. */
  function ToMap(fields: seq<Field>): map<string, Raw> {
    if fields == [] then map[] else map[fields[0].key := fields[0].value] + ToMap(fields[1..])
  }

  ghost predicate DistinctNames(fields: seq<(string, Option<Raw>)>) {
    forall i, j :: 0 <= i < j < |fields| ==> fields[i].0 != fields[j].0
  }

  lemma {:induction false} ToMapKeys(fields: seq<Field>, k: string)
    ensures k in ToMap(fields) <==> exists i :: 0 <= i < |fields| && fields[i].key == k
  {
    if fields != [] {
      ToMapKeys(fields[1..], k);
      if i :| 0 <= i < |fields| && fields[i].key == k { assert i > 0 ==> fields[1..][i - 1].key == k; }
      if i :| 0 <= i < |fields[1..]| && fields[1..][i].key == k { assert fields[i + 1].key == k; }
    }
  }

  /** What a written struct reads back as: the present fields, and nothing else. */
  lemma {:induction false} PresentReadsBack(fields: seq<(string, Option<Raw>)>)
    requires DistinctNames(fields)
    ensures forall i :: 0 <= i < |fields| ==>
      (fields[i].0 in ToMap(Present(fields)) <==> fields[i].1.Some?)
    ensures forall i :: 0 <= i < |fields| && fields[i].1.Some? ==>
      ToMap(Present(fields))[fields[i].0] == fields[i].1.value
    ensures forall k :: k in ToMap(Present(fields)) ==> exists i :: 0 <= i < |fields| && fields[i].0 == k
  {
    if fields != [] {
      var (name, value) := fields[0];
      var rest := fields[1..];
      PresentReadsBack(rest);
      var m, r := ToMap(Present(fields)), ToMap(Present(rest));
      if value.Some? {
        assert Present(fields) == [Field(name, value.value)] + Present(rest);
        assert Present(fields)[1..] == Present(rest);
      } else {
        assert Present(fields) == Present(rest);
      }
      forall i | 0 <= i < |rest| ensures rest[i].0 != name { assert rest[i] == fields[i + 1]; }
      assert name !in r;
      forall i | 0 <= i < |fields|
        ensures fields[i].0 in m <==> fields[i].1.Some?
        ensures fields[i].1.Some? ==> m[fields[i].0] == fields[i].1.value
      {
        if i > 0 { assert fields[i] == rest[i - 1]; }
      }
      forall k | k in m ensures exists i :: 0 <= i < |fields| && fields[i].0 == k {
        if k == name {
          assert fields[0].0 == k;
        } else {
          var i :| 0 <= i < |rest| && rest[i].0 == k;
          assert fields[i + 1].0 == k;
        }
      }
    }
  }

  lemma {:induction false} MapTreeReadsBack<T>(keys: seq<string>, m: map<string, T>, tree: T -> Raw, fields: seq<Field>)
    requires |fields| == |keys| && Increasing(StringLess, keys)
    requires forall i :: 0 <= i < |keys| ==> keys[i] in m && fields[i] == Field(keys[i], tree(m[keys[i]]))
    ensures ToMap(fields).Keys == set k | k in keys
    ensures forall k :: k in keys ==> k in ToMap(fields) && ToMap(fields)[k] == tree(m[k])
  {
    if keys != [] {
      MapTreeReadsBack(keys[1..], m, tree, fields[1..]);
      StringOrder();
      assert keys == [keys[0]] + keys[1..];
      assert keys[0] !in keys[1..];
      assert ToMap(fields) == map[fields[0].key := fields[0].value] + ToMap(fields[1..]);
    }
  }

  /** A written map reads back with the same keys, each at its own value's tree. */
  lemma MapReadsBack<T>(m: map<string, T>, tree: T -> Raw)
    ensures ToMap(MapTree(m, tree).fields) == map k | k in m :: tree(m[k])
  {
    var keys := Keys(m);
    forall i | 0 <= i < |keys| ensures keys[i] in m { assert keys[i] in keys; }
    MapTreeReadsBack(keys, m, tree, MapTree(m, tree).fields);
  }
}
