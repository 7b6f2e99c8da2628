/**
 * The `BugConf` object itself: one attribute per option and the set of
 * options whose value came from a defaults file, updated in place by the
 * setters, `load`, `load_args` and the defaults search of `__init__`. Each
 * method is proved to leave the object in the state the corresponding
 * function of module `Config` describes, so the properties proved about
 * those functions hold of the object.
 */
module Store {
  import opened Wrappers
  import opened Text
  import opened Registry
  import opened Paths
  import opened Config
  import ConfigProperties

  class BugConf {
    /** The option attributes (`self.any_crash`, `self._build`, ...), by option name. */
    var values: map<string, Value>
    /** `self._defaults` */
    var defaults: set<string>
    /** The user's home directory, which every `os.path.expanduser` call consults. */
    const home: Home

    function Snapshot(): State
      reads this
    {
      State(values, defaults)
    }

    /** The object holds an attribute for exactly the registered options. */
    ghost predicate Valid()
      reads this
    {
      WellFormed(Snapshot()) && Complete(Snapshot())
    }

    /** The attribute assignments at the start of `__init__`: every option `None`, no defaults. */
    constructor (h: Home)
      ensures Valid() && home == h
      ensures forall k :: k in values ==> values[k] == Null
      ensures defaults == {}
    {
      values := Unset().values;
      defaults := {};
      home := h;
    }

    /**
     * The rest of `__init__`: load the first of `~/.bugconfrc` and
     * `~/.config/bugconf/config` that opens, as defaults. A missing file, or
     * a `FileNotFoundError` raised while loading one, moves on to the next.
     * An error returned here propagates out of `__init__`.
     */
    method LoadDefaults(fs: FileSystem) returns (err: Option<Error>)
      requires Valid()
      modifies this
      ensures Valid()
      ensures Loaded(Snapshot(), err) == LoadFirstRc(old(Snapshot()), RcPaths(home), home, fs)
    {
      var paths := [ExpandUser(home, "~/.bugconfrc"), ExpandUser(home, "~/.config/bugconf/config")];
      var i := 0;
      while i < |paths|
        invariant 0 <= i <= |paths| && Valid()
        invariant LoadFirstRc(old(Snapshot()), paths, home, fs) == LoadFirstRc(Snapshot(), paths[i..], home, fs)
      {
        var path := paths[i];
        if path in fs.dirs {
          return Some(IsADirectory(path));
        }
        if path in fs.files {
          err := Load(fs.files[path], true, fs);
          if err.None? || !err.value.FileNotFound? {
            return;
          }
        }
        i := i + 1;
      }
      err := None;
    }

    /** `list_builds()`: the entries of the expanded build path, in ascending order. */
    method ListBuilds(fs: FileSystem) returns (r: Result<seq<string>>)
      requires Valid()
      ensures r == Config.ListBuilds(values, home, fs)
      ensures r.Ok? <==> values["buildpath"].Str? && ConfigProperties.BuildDir(values, home) in fs.dirs
      ensures r.Ok? ==> Sorted(r.value) && multiset(r.value) == multiset(fs.dirs[ConfigProperties.BuildDir(values, home)])
    {
      ConfigProperties.ListBuildsSorted(values, home, fs);
      var path := Get(values, "buildpath", home);
      if path.Err? {
        return Err(path.error);
      }
      var entries := ListDir(fs, path.value.s);
      if entries.Err? {
        return Err(entries.error);
      }
      r := Ok(Sort(entries.value));
    }

    /** The `build` setter: the value must be one of the listed builds. */
    method SetBuild(v: Value, fs: FileSystem) returns (err: Option<Error>)
      requires Valid()
      modifies this
      ensures Valid() && defaults == old(defaults)
      ensures err.None? <==> ConfigProperties.BuildListed(old(values), v, home, fs)
      ensures err.None? ==> values == old(values)["build" := v]
      ensures err.Some? ==> values == old(values)
      ensures Config.ListBuilds(old(values), home, fs).Err? ==> err == Some(Config.ListBuilds(old(values), home, fs).error)
      ensures Config.ListBuilds(old(values), home, fs).Ok? && err.Some? ==> err == Some(BuildNotFound)
    {
      var builds := ListBuilds(fs);
      if builds.Err? {
        return Some(builds.error);
      }
      if !(v.Str? && v.s in builds.value) {
        return Some(BuildNotFound);
      }
      values := values["build" := v];
      err := None;
    }

    /** `setattr(self, cfg, value)` for an option, through its property setter if it has one. */
    method SetAttr(k: string, v: Value, fs: FileSystem) returns (err: Option<Error>)
      requires Valid() && k in values
      modifies this
      ensures Valid() && defaults == old(defaults)
      ensures Assign(old(values), k, v, home, fs).Ok? ==> err.None? && values == Assign(old(values), k, v, home, fs).value
      ensures Assign(old(values), k, v, home, fs).Err? ==> err == Some(Assign(old(values), k, v, home, fs).error) && values == old(values)
    {
      if k == "build" {
        err := SetBuild(v, fs);
      } else if k == "reduce_file" {
        if !v.Str? {
          return Some(TypeError);
        }
        values := values[k := Str(ExpandUser(home, v.s))];
        err := None;
      } else {
        values := values[k := v];
        err := None;
      }
    }

    /**
     * `load(cfgfp, _defaults)` of a parsed document: set each key in turn,
     * marking it default-origin or not, and stop at the first exception,
     * keeping what was set before it.
     */
    method Load(doc: Doc, asDefaults: bool, fs: FileSystem) returns (err: Option<Error>)
      requires Valid()
      modifies this
      ensures Valid()
      ensures Loaded(Snapshot(), err) == ApplyLoad(old(Snapshot()), doc, asDefaults, home, fs)
    {
      for i := 0 to |doc|
        invariant Valid()
        invariant ApplyLoad(old(Snapshot()), doc, asDefaults, home, fs) == ApplyLoad(Snapshot(), doc[i..], asDefaults, home, fs)
      {
        var (cfg, value) := doc[i];
        assert doc[i..][0] == doc[i] && doc[i..][1..] == doc[i + 1..];
        RegisteredOptions(Snapshot());
        if !Registered(cfg) {
          return Some(Unsupported(cfg));
        }
        err := SetAttr(cfg, value, fs);
        if err.Some? {
          return;
        }
        if asDefaults {
          defaults := defaults + {cfg};
        } else {
          defaults := defaults - {cfg};
        }
      }
      err := None;
    }

    /** `load_args(args)`: set the options the namespace gives a value other than `None`. */
    method LoadArgs(args: Doc, fs: FileSystem) returns (err: Option<Error>)
      requires Valid()
      modifies this
      ensures Valid()
      ensures Loaded(Snapshot(), err) == ApplyArgs(old(Snapshot()), args, home, fs)
    {
      for i := 0 to |args|
        invariant Valid()
        invariant ApplyArgs(old(Snapshot()), args, home, fs) == ApplyArgs(Snapshot(), args[i..], home, fs)
      {
        var (cfg, value) := args[i];
        assert args[i..][0] == args[i] && args[i..][1..] == args[i + 1..];
        RegisteredOptions(Snapshot());
        if Registered(cfg) && value != Null {
          err := SetAttr(cfg, value, fs);
          if err.Some? {
            return;
          }
          defaults := defaults - {cfg};
        }
      }
      err := None;
    }

    /**
     * `dump(cfgfp)`: the options that are set and not default-origin, with
     * the values their getters return, as the key/value pairs written.
     * `json.dump(sort_keys=True)` writes them in ascending key order, which
     * is the registry order `Collect` visits them in.
     */
    method Dump() returns (r: Result<Doc>)
      requires Valid()
      ensures r == DumpOf(Snapshot(), home)
      ensures r.Ok? <==> ConfigProperties.PathsSet(Snapshot())
      ensures r.Ok? ==>
        && StrictlySorted(Keys(r.value))
        && (forall k :: k in Keys(r.value) <==> Explicit(Snapshot(), k))
        && (forall i :: 0 <= i < |r.value| ==> r.value[i].0 in values && Get(values, r.value[i].0, home) == Ok(r.value[i].1))
    {
      ConfigProperties.NamesAreOptions(Snapshot());
      ConfigProperties.DumpExact(Snapshot(), home);
      r := Collect(Names);
    }

    /** The loop of `dump` over `names`: skip unset and default-origin options, stop at a getter that raises. */
    method Collect(names: seq<string>) returns (r: Result<Doc>)
      requires forall i :: 0 <= i < |names| ==> names[i] in values
      ensures r == DumpFrom(names, Snapshot(), home)
    {
      var obj: Doc := [];
      assert names[0..] == names;
      if DumpFrom(names, Snapshot(), home).Ok? {
        assert [] + DumpFrom(names, Snapshot(), home).value == DumpFrom(names, Snapshot(), home).value;
      }
      for i := 0 to |names|
        invariant DumpFrom(names, Snapshot(), home) == Extend(obj, DumpFrom(names[i..], Snapshot(), home))
      {
        var cfg := names[i];
        assert names[i..][0] == cfg && names[i..][1..] == names[i + 1..];
        var value := Get(values, cfg, home);
        if value.Err? {
          return Err(value.error);
        }
        if !(value.value == Null || cfg in defaults) {
          ExtendOne(obj, (cfg, value.value), DumpFrom(names[i + 1..], Snapshot(), home));
          obj := obj + [(cfg, value.value)];
        }
      }
      assert obj + [] == obj;
      r := Ok(obj);
    }
  }

  /** The entries collected so far, followed by what the rest of the loop collects. */
  function Extend(obj: Doc, rest: Result<Doc>): Result<Doc> {
    match rest
    case Err(e) => Err(e)
    case Ok(tail) => Ok(obj + tail)
  }

  lemma ExtendOne(obj: Doc, e: (string, Value), rest: Result<Doc>)
    ensures Extend(obj, match rest case Err(x) => Err(x) case Ok(t) => Ok([e] + t)) == Extend(obj + [e], rest)
  {
    if rest.Ok? {
      assert obj + ([e] + rest.value) == obj + [e] + rest.value;
    }
  }

  /** For a store holding exactly the registered options, `cfg in _CONFIGS` is "the store has `cfg`". */
  lemma RegisteredOptions(st: State)
    requires Complete(st)
    ensures forall k :: Registered(k) <==> k in st.values
  {
    forall k | Registered(k) ensures k in st.values {
      var i :| 0 <= i < |Names| && Names[i] == k;
    }
  }
}
