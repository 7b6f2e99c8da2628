/**
 * What a `BugConf` store does, as functions of its state: the property
 * getters and setters, `list_builds`, `load`, `load_args`, `dump` and the
 * search for a user-level defaults file in `__init__`. The class in
 * store.dfy runs these step by step and is proved to agree with them.
 */
module Config {
  import opened Wrappers
  import opened Text
  import opened Registry
  import opened Paths

  /** One value per registered option, and the options whose value came from a defaults file. */
  datatype State = State(values: map<string, Value>, defaults: set<string>)

  /** The state after a `load`-like call and the exception it raised, if any. */
  datatype Loaded = Loaded(state: State, err: Option<Error>)

  /**
   * The shape every store keeps: default-origin options are options, and
   * the options the code names directly are present.
   */
  ghost predicate WellFormed(st: State) {
    && st.defaults <= st.values.Keys
    && "build" in st.values && "buildpath" in st.values && "extension_path" in st.values
    && "logfn" in st.values && "prefs" in st.values && "reduce_file" in st.values && "reducer" in st.values
  }

  /**
   * The store holds exactly the registered options, so that asking whether
   * a key is an option of the store is asking `cfg in _CONFIGS`.
   */
  ghost predicate Complete(st: State) {
    st.values.Keys == NameSet
  }

  /** The options `dump` and `__init__` name directly are registered. */
  lemma DirectOptionsRegistered()
    ensures Registered("build") && Registered("buildpath") && Registered("extension_path")
    ensures Registered("logfn") && Registered("prefs") && Registered("reduce_file") && Registered("reducer")
  {
  }

  /** The store `__init__` starts from: every option `None`, nothing default-origin. */
  function Unset(): (st: State)
    ensures WellFormed(st) && Complete(st)
    ensures forall k :: k in st.values ==> st.values[k] == Null
    ensures st.defaults == {}
  {
    UnsetKeys();
    State(map k | k in Names :: Null, {})
  }

  lemma UnsetKeys()
    ensures (map k | k in Names :: Null).Keys == NameSet
    ensures "build" in NameSet && "buildpath" in NameSet && "extension_path" in NameSet
    ensures "logfn" in NameSet && "prefs" in NameSet && "reduce_file" in NameSet && "reducer" in NameSet
  {
    var m := map k | k in Names :: Null;
    forall k | k in m.Keys ensures k in NameSet {
      var i :| 0 <= i < |Names| && Names[i] == k;
    }
    DirectOptionsRegistered();
  }

  /** The options whose getter returns `os.path.expanduser` of the stored value. */
  const PathOptions: set<string> := {"buildpath", "extension_path", "logfn", "prefs", "reducer"}

  /** `os.path.expanduser(v)`: a `TypeError` unless `v` is a string. */
  function ExpandValue(h: Home, v: Value): (r: Result<Value>)
    ensures r.Ok? <==> v.Str?
    ensures r.Ok? ==> r.value == Str(ExpandUser(h, v.s))
    ensures r.Err? ==> r.error == TypeError
  {
    if v.Str? then Ok(Str(ExpandUser(h, v.s))) else Err(TypeError)
  }

  /** `getattr(self, cfg)`: the stored value, expanded for the path-like options. */
  function Get(vals: map<string, Value>, k: string, h: Home): (r: Result<Value>)
    requires k in vals
    ensures k !in PathOptions ==> r == Ok(vals[k])
    ensures k in PathOptions ==> r == ExpandValue(h, vals[k])
    ensures r.Err? <==> k in PathOptions && !vals[k].Str?
  {
    if k in PathOptions then ExpandValue(h, vals[k]) else Ok(vals[k])
  }

  /** `list_builds()`: the entries of the expanded build path, sorted ascending. */
  function ListBuilds(vals: map<string, Value>, h: Home, fs: FileSystem): Result<seq<string>>
    requires "buildpath" in vals
  {
    match Get(vals, "buildpath", h)
    case Err(e) => Err(e)
    case Ok(p) =>
      match ListDir(fs, p.s)
      case Err(e) => Err(e)
      case Ok(entries) => Ok(Sort(entries))
  }

  /** The value an accepted assignment leaves in the store: `reduce_file` is expanded on the way in. */
  function Stored(k: string, v: Value, h: Home): Value {
    if k == "reduce_file" && v.Str? then Str(ExpandUser(h, v.s)) else v
  }

  /** `setattr(self, cfg, value)`, including the `build` and `reduce_file` property setters. */
  function Assign(vals: map<string, Value>, k: string, v: Value, h: Home, fs: FileSystem): (r: Result<map<string, Value>>)
    requires k in vals && "buildpath" in vals
    ensures r.Ok? ==> r.value == vals[k := Stored(k, v, h)]
    ensures k != "build" && k != "reduce_file" ==> r.Ok?
    ensures k == "reduce_file" ==> (r.Ok? <==> v.Str?)
  {
    if k == "build" then
      match ListBuilds(vals, h, fs)
      case Err(e) => Err(e)
      case Ok(builds) => if v.Str? && v.s in builds then Ok(vals[k := v]) else Err(BuildNotFound)
    else if k == "reduce_file" then
      match ExpandValue(h, v)
      case Err(e) => Err(e)
      case Ok(x) => Ok(vals[k := x])
    else Ok(vals[k := v])
  }

  /**
   * `load(cfgfp, _defaults)`: apply the document's keys in order, stopping
   * at the first exception. A key the store has no option for is
   * "Unsupported config".
   */
  function ApplyLoad(st: State, doc: Doc, asDefaults: bool, h: Home, fs: FileSystem): (r: Loaded)
    requires WellFormed(st)
    ensures WellFormed(r.state) && r.state.values.Keys == st.values.Keys
    decreases |doc|
  {
    if doc == [] then Loaded(st, None)
    else
      var (k, v) := doc[0];
      if k !in st.values then Loaded(st, Some(Unsupported(k)))
      else
        match Assign(st.values, k, v, h, fs)
        case Err(e) => Loaded(st, Some(e))
        case Ok(vals) =>
          var marks := if asDefaults then st.defaults + {k} else st.defaults - {k};
          ApplyLoad(State(vals, marks), doc[1..], asDefaults, h, fs)
  }

  /** `load_args(args)`: apply the keys that are options and whose parsed value is not `None`. */
  function ApplyArgs(st: State, args: Doc, h: Home, fs: FileSystem): (r: Loaded)
    requires WellFormed(st)
    ensures WellFormed(r.state) && r.state.values.Keys == st.values.Keys
    decreases |args|
  {
    if args == [] then Loaded(st, None)
    else
      var (k, v) := args[0];
      if k in st.values && v != Null then
        match Assign(st.values, k, v, h, fs)
        case Err(e) => Loaded(st, Some(e))
        case Ok(vals) => ApplyArgs(State(vals, st.defaults - {k}), args[1..], h, fs)
      else ApplyArgs(st, args[1..], h, fs)
  }

  /** The entries `dump` collects for `names`, in that order. */
  function DumpFrom(names: seq<string>, st: State, h: Home): Result<Doc>
    requires forall i :: 0 <= i < |names| ==> names[i] in st.values
  {
    if names == [] then Ok([])
    else
      match Get(st.values, names[0], h)
      case Err(e) => Err(e)
      case Ok(v) =>
        match DumpFrom(names[1..], st, h)
        case Err(e) => Err(e)
        case Ok(rest) => Ok(if v == Null || names[0] in st.defaults then rest else [(names[0], v)] + rest)
  }

  /** `dump(cfgfp)`: the document written, as key/value pairs in the order written (sorted keys). */
  function DumpOf(st: State, h: Home): Result<Doc>
    requires Complete(st)
  {
    DumpFrom(Names, st, h)
  }

  /** The two user-level defaults files `__init__` looks for, in order. */
  function RcPaths(h: Home): seq<string> {
    [ExpandUser(h, "~/.bugconfrc"), ExpandUser(h, "~/.config/bugconf/config")]
  }

  /**
   * The defaults search of `__init__`: load the first of `paths` that opens,
   * as defaults. A `FileNotFoundError`, whether from `open` or from a `build`
   * key whose build path is missing, moves on to the next path.
   */
  function LoadFirstRc(st: State, paths: seq<string>, h: Home, fs: FileSystem): (r: Loaded)
    requires WellFormed(st)
    ensures WellFormed(r.state) && r.state.values.Keys == st.values.Keys
    decreases |paths|
  {
    if paths == [] then Loaded(st, None)
    else if paths[0] in fs.dirs then Loaded(st, Some(IsADirectory(paths[0])))
    else if paths[0] !in fs.files then LoadFirstRc(st, paths[1..], h, fs)
    else
      var r := ApplyLoad(st, fs.files[paths[0]], true, h, fs);
      if r.err.Some? && r.err.value.FileNotFound? then LoadFirstRc(r.state, paths[1..], h, fs) else r
  }

  // ---------------------------------------------------------------------------
  // Vocabulary for the properties.

  function Keys(doc: Doc): (ks: seq<string>)
    ensures |ks| == |doc| && forall i :: 0 <= i < |doc| ==> ks[i] == doc[i].0
  {
    seq(|doc|, i requires 0 <= i < |doc| => doc[i].0)
  }

  /** The keys of a parsed JSON object are distinct. */
  ghost predicate DistinctKeys(doc: Doc) {
    forall i, j :: 0 <= i < j < |doc| ==> doc[i].0 != doc[j].0
  }

  /** An option `dump` would write: set, and not default-origin. */
  ghost predicate Explicit(st: State, k: string) {
    k in st.values && st.values[k] != Null && k !in st.defaults
  }
}
