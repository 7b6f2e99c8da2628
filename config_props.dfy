/**
 * Properties of the configuration store: what `load`, `load_args`, `dump`,
 * `list_builds` and the `build` setter promise, and how they compose.
 */
module ConfigProperties {
  import opened Wrappers
  import opened Text
  import opened Registry
  import opened Paths
  import opened Config

  // ---------------------------------------------------------------------------
  // list_builds and the build setter

  /** The expanded build path, when `buildpath` holds a string. */
  function BuildDir(vals: map<string, Value>, h: Home): string
    requires "buildpath" in vals && vals["buildpath"].Str?
  {
    ExpandUser(h, vals["buildpath"].s)
  }

  /**
   * `list_builds` succeeds exactly when the expanded build path is a
   * directory, and then yields its entries in ascending order.
   */
  lemma ListBuildsSorted(vals: map<string, Value>, h: Home, fs: FileSystem)
    requires "buildpath" in vals
    ensures ListBuilds(vals, h, fs).Ok? <==> vals["buildpath"].Str? && BuildDir(vals, h) in fs.dirs
    ensures !vals["buildpath"].Str? ==> ListBuilds(vals, h, fs) == Err(TypeError)
    ensures ListBuilds(vals, h, fs).Ok? ==>
      && Sorted(ListBuilds(vals, h, fs).value)
      && multiset(ListBuilds(vals, h, fs).value) == multiset(fs.dirs[BuildDir(vals, h)])
  {
    if vals["buildpath"].Str? && BuildDir(vals, h) in fs.dirs {
      SortSorted(fs.dirs[BuildDir(vals, h)]);
      SortPermutes(fs.dirs[BuildDir(vals, h)]);
    }
  }

  /** The value is one of the builds `list_builds` yields for `vals`. */
  ghost predicate BuildListed(vals: map<string, Value>, v: Value, h: Home, fs: FileSystem)
    requires "buildpath" in vals
  {
    ListBuilds(vals, h, fs).Ok? && v.Str? && v.s in ListBuilds(vals, h, fs).value
  }

  /**
   * Assigning `build` succeeds exactly when the value is a listed build;
   * an unlisted value raises "Build not found", a failing listing raises
   * its own error, and an accepted value reads back unchanged.
   */
  lemma SetBuild(vals: map<string, Value>, v: Value, h: Home, fs: FileSystem)
    requires "build" in vals && "buildpath" in vals
    ensures Assign(vals, "build", v, h, fs).Ok? <==> BuildListed(vals, v, h, fs)
    ensures ListBuilds(vals, h, fs).Err? ==> Assign(vals, "build", v, h, fs) == Err(ListBuilds(vals, h, fs).error)
    ensures ListBuilds(vals, h, fs).Ok? && !BuildListed(vals, v, h, fs) ==> Assign(vals, "build", v, h, fs) == Err(BuildNotFound)
    ensures BuildListed(vals, v, h, fs) ==>
      && Get(Assign(vals, "build", v, h, fs).value, "build", h) == Ok(v)
      && Assign(vals, "build", v, h, fs).value == vals["build" := v]
  {
  }

  // ---------------------------------------------------------------------------
  // load

  /** Loading `a + b` is loading `a`, then, unless that raised, loading `b`. */
  lemma {:induction false} LoadConcat(st: State, a: Doc, b: Doc, d: bool, h: Home, fs: FileSystem)
    requires WellFormed(st)
    ensures ApplyLoad(st, a + b, d, h, fs) ==
      var first := ApplyLoad(st, a, d, h, fs);
      if first.err.Some? then first else ApplyLoad(first.state, b, d, h, fs)
    decreases |a|
  {
    if a != [] {
      assert (a + b)[0] == a[0];
      assert (a + b)[1..] == a[1..] + b;
      var (k, v) := a[0];
      if k in st.values && Assign(st.values, k, v, h, fs).Ok? {
        var vals := Assign(st.values, k, v, h, fs).value;
        var marks := if d then st.defaults + {k} else st.defaults - {k};
        LoadConcat(State(vals, marks), a[1..], b, d, h, fs);
      }
    } else {
      assert a + b == b;
    }
  }

  /**
   * A key that is not an option makes `load` raise "Unsupported config"; the
   * keys before it have already been applied (or raised first).
   */
  lemma LoadStopsAtUnknown(st: State, doc: Doc, i: nat, d: bool, h: Home, fs: FileSystem)
    requires WellFormed(st)
    requires i < |doc| && doc[i].0 !in st.values
    ensures ApplyLoad(st, doc, d, h, fs).err.Some?
    ensures ApplyLoad(st, doc, d, h, fs) ==
      var before := ApplyLoad(st, doc[..i], d, h, fs);
      if before.err.Some? then before else Loaded(before.state, Some(Unsupported(doc[i].0)))
  {
    assert doc == doc[..i] + doc[i..];
    LoadConcat(st, doc[..i], doc[i..], d, h, fs);
    assert doc[i..][0] == doc[i];
  }

  /** What an exception from `load` says: an "Unsupported config" names a key of the document. */
  lemma {:induction false} LoadErrors(st: State, doc: Doc, d: bool, h: Home, fs: FileSystem)
    requires WellFormed(st)
    ensures ApplyLoad(st, doc, d, h, fs).err.None? ==> forall i :: 0 <= i < |doc| ==> doc[i].0 in st.values
    ensures ApplyLoad(st, doc, d, h, fs).err.Some? && ApplyLoad(st, doc, d, h, fs).err.value.Unsupported? ==>
      var k := ApplyLoad(st, doc, d, h, fs).err.value.key;
      k in Keys(doc) && k !in st.values
    decreases |doc|
  {
    if doc != [] {
      var (k, v) := doc[0];
      if k in st.values && Assign(st.values, k, v, h, fs).Ok? {
        var vals := Assign(st.values, k, v, h, fs).value;
        var marks := if d then st.defaults + {k} else st.defaults - {k};
        LoadErrors(State(vals, marks), doc[1..], d, h, fs);
        assert forall j :: 0 <= j < |doc[1..]| ==> doc[1..][j] == doc[j + 1];
        if ApplyLoad(st, doc, d, h, fs).err.Some? && ApplyLoad(st, doc, d, h, fs).err.value.Unsupported? {
          var u := ApplyLoad(st, doc, d, h, fs).err.value.key;
          assert u in Keys(doc[1..]);
          var j :| 0 <= j < |doc[1..]| && doc[1..][j].0 == u;
          assert doc[j + 1].0 == u;
        }
      }
    }
  }

  /**
   * Nothing outside the document changes, even when `load` raises; loading
   * defaults only adds to the default-origin set, any other load only
   * removes from it.
   */
  lemma {:induction false} LoadFrame(st: State, doc: Doc, d: bool, h: Home, fs: FileSystem)
    requires WellFormed(st)
    ensures var r := ApplyLoad(st, doc, d, h, fs).state;
      && (forall k :: k in st.values && k !in Keys(doc) ==>
            r.values[k] == st.values[k] && (k in r.defaults <==> k in st.defaults))
      && (d ==> st.defaults <= r.defaults)
      && (!d ==> r.defaults <= st.defaults)
    decreases |doc|
  {
    if doc != [] {
      var (k, v) := doc[0];
      if k in st.values && Assign(st.values, k, v, h, fs).Ok? {
        var vals := Assign(st.values, k, v, h, fs).value;
        var marks := if d then st.defaults + {k} else st.defaults - {k};
        LoadFrame(State(vals, marks), doc[1..], d, h, fs);
        forall j | j in st.values && j !in Keys(doc) ensures j !in Keys(doc[1..]) && j != k {
          assert Keys(doc)[0] == k;
          forall m | 0 <= m < |doc[1..]| ensures Keys(doc[1..])[m] != j {
            assert Keys(doc[1..])[m] == Keys(doc)[m + 1];
          }
        }
      }
    }
  }

  /**
   * A `load` that raises nothing leaves each key of the document holding its
   * value (as the setter stores it), default-origin exactly when loading
   * defaults.
   */
  lemma {:induction false} LoadApplies(st: State, doc: Doc, d: bool, h: Home, fs: FileSystem)
    requires WellFormed(st) && DistinctKeys(doc)
    requires ApplyLoad(st, doc, d, h, fs).err.None?
    ensures var r := ApplyLoad(st, doc, d, h, fs).state;
      forall i :: 0 <= i < |doc| ==>
        && doc[i].0 in st.values
        && r.values[doc[i].0] == Stored(doc[i].0, doc[i].1, h)
        && (doc[i].0 in r.defaults <==> d)
    decreases |doc|
  {
    if doc != [] {
      var (k, v) := doc[0];
      var vals := Assign(st.values, k, v, h, fs).value;
      var marks := if d then st.defaults + {k} else st.defaults - {k};
      var st1 := State(vals, marks);
      assert DistinctKeys(doc[1..]) by {
        forall i, j | 0 <= i < j < |doc[1..]| ensures doc[1..][i].0 != doc[1..][j].0 {
          assert doc[1..][i] == doc[i + 1] && doc[1..][j] == doc[j + 1];
        }
      }
      LoadApplies(st1, doc[1..], d, h, fs);
      LoadFrame(st1, doc[1..], d, h, fs);
      assert k !in Keys(doc[1..]) by {
        forall m | 0 <= m < |doc[1..]| ensures doc[1..][m].0 != k {
          assert doc[1..][m] == doc[m + 1];
        }
      }
      forall i | 0 <= i < |doc| ensures
        var r := ApplyLoad(st, doc, d, h, fs).state;
        && doc[i].0 in st.values
        && r.values[doc[i].0] == Stored(doc[i].0, doc[i].1, h)
        && (doc[i].0 in r.defaults <==> d)
      {
        if i > 0 {
          assert doc[i] == doc[1..][i - 1];
        }
      }
    }
  }

  // ---------------------------------------------------------------------------
  // load_args

  /** The entries of an argument namespace that `load_args` applies, for a store with options `opts`. */
  function Applicable(opts: set<string>, args: Doc): (r: Doc)
    ensures forall i :: 0 <= i < |r| ==> r[i].0 in opts && r[i].1 != Null
    ensures forall e :: e in r ==> e in args
  {
    if args == [] then []
    else if args[0].0 in opts && args[0].1 != Null then [args[0]] + Applicable(opts, args[1..])
    else Applicable(opts, args[1..])
  }

  /**
   * `load_args` is `load` (not as defaults) of the non-`None` entries that
   * are options: the others (`testcase`, `write`, `verbose`, unset options) are
   * ignored, and each applied key leaves the default-origin set.
   */
  lemma {:induction false} ArgsAsLoad(st: State, args: Doc, h: Home, fs: FileSystem)
    requires WellFormed(st)
    ensures ApplyArgs(st, args, h, fs) == ApplyLoad(st, Applicable(st.values.Keys, args), false, h, fs)
    decreases |args|
  {
    if args != [] {
      var (k, v) := args[0];
      if k in st.values && v != Null {
        var app := Applicable(st.values.Keys, args);
        assert app[0] == args[0] && app[1..] == Applicable(st.values.Keys, args[1..]);
        if Assign(st.values, k, v, h, fs).Ok? {
          ArgsAsLoad(State(Assign(st.values, k, v, h, fs).value, st.defaults - {k}), args[1..], h, fs);
        }
      } else {
        ArgsAsLoad(st, args[1..], h, fs);
      }
    }
  }

  /** The names `parse_args` adds beside the options are not options. */
  lemma CliExtrasUnregistered()
    ensures !Registered("testcase") && !Registered("write") && !Registered("verbose")
  {
    forall i | 0 <= i < |Names| ensures Names[i] != "testcase" && Names[i] != "write" && Names[i] != "verbose" {
    }
  }

  // ---------------------------------------------------------------------------
  // dump

  /** Every path-like option holds a string, so that its getter does not raise. */
  ghost predicate PathsSet(st: State) {
    forall p :: p in PathOptions ==> p in st.values && st.values[p].Str?
  }

  lemma {:induction false} DumpFromSpec(names: seq<string>, st: State, h: Home)
    requires forall i :: 0 <= i < |names| ==> names[i] in st.values
    ensures DumpFrom(names, st, h).Ok? <==>
      forall i :: 0 <= i < |names| && names[i] in PathOptions ==> st.values[names[i]].Str?
    ensures DumpFrom(names, st, h).Ok? ==>
      var doc := DumpFrom(names, st, h).value;
      && (forall i :: 0 <= i < |doc| ==>
            doc[i].0 in names && Explicit(st, doc[i].0) && Get(st.values, doc[i].0, h) == Ok(doc[i].1))
      && (forall i :: 0 <= i < |names| && Explicit(st, names[i]) ==> names[i] in Keys(doc))
    decreases |names|
  {
    if names != [] {
      var n, tail := names[0], names[1..];
      assert forall i :: 0 <= i < |tail| ==> tail[i] == names[i + 1];
      DumpFromSpec(tail, st, h);
      if DumpFrom(names, st, h).Ok? {
        var v := Get(st.values, n, h).value;
        var rest := DumpFrom(tail, st, h).value;
        var doc := DumpFrom(names, st, h).value;
        forall i | 0 <= i < |names| && Explicit(st, names[i]) ensures names[i] in Keys(doc) {
          if i == 0 {
            assert doc == [(n, v)] + rest;
            assert Keys(doc)[0] == n;
          } else {
            assert names[i] == tail[i - 1];
            var m :| 0 <= m < |rest| && Keys(rest)[m] == names[i];
            if doc == rest {
            } else {
              assert doc == [(n, v)] + rest;
              assert Keys(doc)[m + 1] == rest[m].0;
            }
          }
        }
      }
    }
  }

  lemma {:induction false} DumpFromSorted(names: seq<string>, st: State, h: Home)
    requires forall i :: 0 <= i < |names| ==> names[i] in st.values
    requires StrictlySorted(names) && DumpFrom(names, st, h).Ok?
    ensures StrictlySorted(Keys(DumpFrom(names, st, h).value))
    decreases |names|
  {
    if names != [] {
      var n, tail := names[0], names[1..];
      assert forall i :: 0 <= i < |tail| ==> tail[i] == names[i + 1];
      DumpFromSorted(tail, st, h);
      DumpFromSpec(tail, st, h);
      var v := Get(st.values, n, h).value;
      var rest := DumpFrom(tail, st, h).value;
      var doc := DumpFrom(names, st, h).value;
      if !(v == Null || n in st.defaults) {
        assert doc == [(n, v)] + rest;
        forall i, j | 0 <= i < j < |doc| ensures Less(Keys(doc)[i], Keys(doc)[j]) {
          if i == 0 {
            assert doc[j] == rest[j - 1];
            var m :| 0 <= m < |tail| && tail[m] == doc[j].0;
            assert Less(names[0], names[m + 1]);
          } else {
            assert doc[i] == rest[i - 1] && doc[j] == rest[j - 1];
            assert Keys(rest)[i - 1] == rest[i - 1].0 && Keys(rest)[j - 1] == rest[j - 1].0;
          }
        }
      }
    }
  }

  /** The registry is the store's key set, so `dump` visits every option of the store once, in order. */
  lemma NamesAreOptions(st: State)
    requires Complete(st)
    ensures forall i :: 0 <= i < |Names| ==> Names[i] in st.values
    ensures forall k :: k in st.values ==> k in Names
    ensures StrictlySorted(Names)
  {
    RegistrySorted();
  }

  lemma DumpFromSucceeds(names: seq<string>, st: State, h: Home)
    requires forall i :: 0 <= i < |names| ==> names[i] in st.values
    requires forall p :: p in PathOptions ==> p in names
    ensures DumpFrom(names, st, h).Ok? <==> PathsSet(st)
  {
    DumpFromSpec(names, st, h);
    if !PathsSet(st) {
      var p :| p in PathOptions && !(p in st.values && st.values[p].Str?);
      var i :| 0 <= i < |names| && names[i] == p;
    }
  }

  lemma {:induction false} DumpFromExact(names: seq<string>, st: State, h: Home)
    requires forall i :: 0 <= i < |names| ==> names[i] in st.values
    requires forall k :: k in st.values ==> k in names
    requires StrictlySorted(names) && DumpFrom(names, st, h).Ok?
    ensures var doc := DumpFrom(names, st, h).value;
      && StrictlySorted(Keys(doc))
      && (forall k :: k in Keys(doc) <==> Explicit(st, k))
      && (forall i :: 0 <= i < |doc| ==> doc[i].0 in st.values && Get(st.values, doc[i].0, h) == Ok(doc[i].1))
  {
    DumpFromSpec(names, st, h);
    DumpFromSorted(names, st, h);
    var doc := DumpFrom(names, st, h).value;
    forall k | k in Keys(doc) ensures Explicit(st, k) {
      var i :| 0 <= i < |doc| && Keys(doc)[i] == k;
    }
    forall k | Explicit(st, k) ensures k in Keys(doc) {
      var i :| 0 <= i < |names| && names[i] == k;
    }
  }

  /**
   * `dump` raises unless every path-like option is set (their getters expand
   * `None`), and otherwise writes exactly the options that are not `None`
   * and not default-origin (`False` and `0` included), each with the value
   * its getter returns, in ascending key order.
   */
  lemma DumpExact(st: State, h: Home)
    requires WellFormed(st) && Complete(st)
    ensures DumpOf(st, h).Ok? <==> PathsSet(st)
    ensures DumpOf(st, h).Ok? ==>
      var doc := DumpOf(st, h).value;
      && StrictlySorted(Keys(doc))
      && (forall k :: k in Keys(doc) <==> Explicit(st, k))
      && (forall i :: 0 <= i < |doc| ==> doc[i].0 in st.values && Get(st.values, doc[i].0, h) == Ok(doc[i].1))
  {
    NamesAreOptions(st);
    DumpFromSucceeds(Names, st, h);
    if DumpOf(st, h).Ok? {
      DumpFromExact(Names, st, h);
    }
  }

  /** A document with ascending keys has distinct keys. */
  lemma SortedDistinct(doc: Doc)
    requires StrictlySorted(Keys(doc))
    ensures DistinctKeys(doc)
  {
    forall i, j | 0 <= i < j < |doc| ensures doc[i].0 != doc[j].0 {
      assert Less(Keys(doc)[i], Keys(doc)[j]);
      LessIrreflexive(doc[i].0);
    }
  }

  // ---------------------------------------------------------------------------
  // dump followed by load

  /** `reduce_file` holds `None` or an already expanded path, as its setter leaves it. */
  ghost predicate Settled(st: State, h: Home) {
    && "reduce_file" in st.values
    && var rf := st.values["reduce_file"];
       rf == Null || (rf.Str? && ExpandUser(h, rf.s) == rf.s)
  }

  /** Storing a dumped value back through its setter reads back as the original getter did. */
  lemma ReadBack(vals: map<string, Value>, st: State, n: string, h: Home)
    requires n in vals && Explicit(st, n) && Sane(h) && Settled(st, h)
    requires Get(st.values, n, h).Ok?
    requires vals[n] == Stored(n, Get(st.values, n, h).value, h)
    ensures Get(vals, n, h) == Get(st.values, n, h)
  {
    if n in PathOptions {
      ExpandIdempotent(h, st.values[n].s);
    }
  }

  lemma BuildBeforeBuildpath()
    ensures !Less("buildpath", "build")
  {
    assert Less("build", "buildpath");
    LessAsymmetric("build", "buildpath");
  }

  /** One step of reloading: the first dumped entry is accepted by the setter. */
  lemma ReloadStep(st: State, cur: State, n: string, v: Value, h: Home, fs: FileSystem)
    requires WellFormed(cur) && n in cur.values && Explicit(st, n) && Settled(st, h)
    requires Get(st.values, n, h) == Ok(v)
    requires n == "build" ==> BuildListed(cur.values, st.values["build"], h, fs)
    ensures Assign(cur.values, n, v, h, fs) == Ok(cur.values[n := Stored(n, v, h)])
  {
  }

  lemma {:induction false} ReloadFrom(names: seq<string>, st: State, cur: State, h: Home, fs: FileSystem)
    requires WellFormed(st) && WellFormed(cur) && Sane(h) && Settled(st, h)
    requires cur.values.Keys == st.values.Keys
    requires forall i :: 0 <= i < |names| ==> names[i] in st.values
    requires StrictlySorted(names)
    requires DumpFrom(names, st, h).Ok?
    requires "build" in names && Explicit(st, "build") ==> BuildListed(cur.values, st.values["build"], h, fs)
    ensures var r := ApplyLoad(cur, DumpFrom(names, st, h).value, false, h, fs);
      && r.err.None?
      && (forall k :: k in names && Explicit(st, k) ==>
            Get(r.state.values, k, h) == Get(st.values, k, h) && k !in r.state.defaults)
      && (forall k :: k in cur.values && !(k in names && Explicit(st, k)) ==>
            r.state.values[k] == cur.values[k] && (k in r.state.defaults <==> k in cur.defaults))
    decreases |names|
  {
    if names != [] {
      var n, tail := names[0], names[1..];
      HeadBelowTail(names);
      var v := Get(st.values, n, h).value;
      var rest := DumpFrom(tail, st, h).value;
      if v == Null || n in st.defaults {
        ReloadFrom(tail, st, cur, h, fs);
      } else {
        var doc := DumpFrom(names, st, h).value;
        assert doc == [(n, v)] + rest;
        var cur1 := State(cur.values[n := Stored(n, v, h)], cur.defaults - {n});
        ReloadStep(st, cur, n, v, h, fs);
        BuildStillListed(names, st, cur, cur1, h, fs);
        ReloadFrom(tail, st, cur1, h, fs);
        assert ApplyLoad(cur, doc, false, h, fs) == ApplyLoad(cur1, rest, false, h, fs);
        ReadBack(ApplyLoad(cur1, rest, false, h, fs).state.values, st, n, h);
      }
    }
  }

  /** In a strictly sorted sequence the head is below, and so absent from, the tail. */
  lemma HeadBelowTail(names: seq<string>)
    requires names != [] && StrictlySorted(names)
    ensures StrictlySorted(names[1..])
    ensures forall x :: x in names[1..] ==> Less(names[0], x)
    ensures names[0] !in names[1..]
  {
    LessIrreflexive(names[0]);
    forall x | x in names[1..] ensures Less(names[0], x) {
      var m :| 0 <= m < |names[1..]| && names[1..][m] == x;
      assert names[1..][m] == names[m + 1];
    }
  }

  /**
   * Reloading the entry for `names[0]` keeps the dumped build listed for the
   * rest: `buildpath`, the one option that changes the listing, sorts after
   * `build`.
   */
  lemma BuildStillListed(names: seq<string>, st: State, cur: State, cur1: State, h: Home, fs: FileSystem)
    requires names != [] && StrictlySorted(names) && WellFormed(cur)
    requires "build" in names && Explicit(st, "build") ==> BuildListed(cur.values, st.values["build"], h, fs)
    requires cur1.values.Keys == cur.values.Keys
    requires forall k :: k in cur.values && k != names[0] ==> cur1.values[k] == cur.values[k]
    ensures "build" in names[1..] && Explicit(st, "build") ==> BuildListed(cur1.values, st.values["build"], h, fs)
  {
    if "build" in names[1..] && Explicit(st, "build") {
      HeadBelowTail(names);
      BuildBeforeBuildpath();
      assert names[0] != "buildpath";
      assert cur1.values["buildpath"] == cur.values["buildpath"];
      assert ListBuilds(cur1.values, h, fs) == ListBuilds(cur.values, h, fs);
    }
  }

  /** The precondition the `build` setter puts on reloading a dump into `base`. */
  ghost predicate BuildReloadable(st: State, base: State, h: Home, fs: FileSystem)
    requires WellFormed(base)
  {
    Explicit(st, "build") ==> BuildListed(base.values, st.values["build"], h, fs)
  }

  /**
   * Loading what `dump` wrote back into a store `base` whose build path lists
   * the dumped build (if one was dumped) raises nothing, reproduces every
   * non-default value as its getter returns it, marks none of them
   * default-origin, and leaves the other options of `base` as they were.
   */
  lemma RoundTrip(st: State, base: State, h: Home, fs: FileSystem)
    requires WellFormed(st) && Complete(st) && WellFormed(base) && Complete(base)
    requires Sane(h) && Settled(st, h)
    requires DumpOf(st, h).Ok?
    requires BuildReloadable(st, base, h, fs)
    ensures var r := ApplyLoad(base, DumpOf(st, h).value, false, h, fs);
      && r.err.None?
      && (forall k :: Explicit(st, k) ==> Get(r.state.values, k, h) == Get(st.values, k, h) && k !in r.state.defaults)
      && (forall k :: k in base.values && !Explicit(st, k) ==>
            r.state.values[k] == base.values[k] && (k in r.state.defaults <==> k in base.defaults))
  {
    NamesAreOptions(st);
    ReloadFrom(Names, st, base, h, fs);
  }

  /**
   * Into a store with nothing set and nothing default-origin, the round trip
   * holds whenever `build` was not dumped: the reloaded store has exactly the
   * dumped values and no default-origin options.
   */
  lemma FreshRoundTrip(st: State, h: Home, fs: FileSystem)
    requires WellFormed(st) && Complete(st) && Sane(h) && Settled(st, h)
    requires DumpOf(st, h).Ok? && !Explicit(st, "build")
    ensures var r := ApplyLoad(Unset(), DumpOf(st, h).value, false, h, fs).state;
      && r.defaults == {}
      && (forall k :: Explicit(st, k) ==> Get(r.values, k, h) == Get(st.values, k, h))
      && (forall k :: k in st.values && !Explicit(st, k) ==> r.values[k] == Null)
  {
    RoundTrip(st, Unset(), h, fs);
    var r := ApplyLoad(Unset(), DumpOf(st, h).value, false, h, fs).state;
    assert r.defaults <= Unset().defaults by {
      LoadFrame(Unset(), DumpOf(st, h).value, false, h, fs);
    }
  }

  lemma RejectsBuildFrom(names: seq<string>, st: State, cur: State, h: Home, fs: FileSystem)
    requires WellFormed(cur) && "any_crash" in cur.values && cur.values["buildpath"] == Null
    requires |names| >= 2 && names[0] == "any_crash" && names[1] == "build"
    requires forall i :: 0 <= i < |names| ==> names[i] in st.values
    requires DumpFrom(names, st, h).Ok? && Explicit(st, "build")
    ensures ApplyLoad(cur, DumpFrom(names, st, h).value, false, h, fs).err == Some(TypeError)
  {
    var tail := names[1..];
    assert tail[0] == "build" && tail[1..] == names[2..];
    var bv := Get(st.values, "build", h).value;
    var rest := DumpFrom(names[2..], st, h).value;
    var doc1 := [("build", bv)] + rest;
    assert DumpFrom(tail, st, h) == Ok(doc1);
    var av := Get(st.values, "any_crash", h).value;
    var a: Doc := if av == Null || "any_crash" in st.defaults then [] else [("any_crash", av)];
    assert DumpFrom(names, st, h).value == a + doc1;
    LoadConcat(cur, a, doc1, false, h, fs);
    var mid := ApplyLoad(cur, a, false, h, fs);
    assert mid.err.None? && mid.state.values["buildpath"] == Null;
    assert doc1[0] == ("build", bv);
    assert ListBuilds(mid.state.values, h, fs) == Err(TypeError);
  }

  lemma NamesStart()
    ensures |Names| >= 2 && Names[0] == "any_crash" && Names[1] == "build"
  {
  }

  /**
   * But a dumped `build` does not reload into such a store: `build` sorts
   * before `buildpath`, so its setter lists builds while `buildpath` is still
   * `None`, and `expanduser(None)` raises `TypeError`.
   */
  lemma FreshReloadRejectsBuild(st: State, h: Home, fs: FileSystem)
    requires WellFormed(st) && Complete(st) && DumpOf(st, h).Ok? && Explicit(st, "build")
    ensures ApplyLoad(Unset(), DumpOf(st, h).value, false, h, fs).err == Some(TypeError)
  {
    NamesStart();
    NamesAreOptions(st);
    RejectsBuildFrom(Names, st, Unset(), h, fs);
  }

  // ---------------------------------------------------------------------------
  // Layering: user defaults, then the working-directory bugconf

  /**
   * Loading a defaults document and then a project document: the project's
   * keys win and are not default-origin; keys only in the defaults document
   * keep its values and stay default-origin (so `dump` leaves them out).
   */
  lemma Layered(st: State, rc: Doc, proj: Doc, h: Home, fs: FileSystem)
    requires WellFormed(st) && DistinctKeys(rc) && DistinctKeys(proj)
    requires ApplyLoad(st, rc, true, h, fs).err.None?
    requires ApplyLoad(ApplyLoad(st, rc, true, h, fs).state, proj, false, h, fs).err.None?
    ensures var r := ApplyLoad(ApplyLoad(st, rc, true, h, fs).state, proj, false, h, fs).state;
      && (forall i :: 0 <= i < |proj| ==>
            proj[i].0 in r.values && r.values[proj[i].0] == Stored(proj[i].0, proj[i].1, h) && proj[i].0 !in r.defaults)
      && (forall i :: 0 <= i < |rc| && rc[i].0 !in Keys(proj) ==>
            rc[i].0 in r.values && r.values[rc[i].0] == Stored(rc[i].0, rc[i].1, h) && rc[i].0 in r.defaults)
  {
    var s1 := ApplyLoad(st, rc, true, h, fs).state;
    var r := ApplyLoad(s1, proj, false, h, fs).state;
    LoadApplies(st, rc, true, h, fs);
    LoadApplies(s1, proj, false, h, fs);
    LoadFrame(s1, proj, false, h, fs);
  }

  // ---------------------------------------------------------------------------
  // The defaults search of `__init__`

  /** `open(path)` gets past the missing-file check: the path is a directory or a file. */
  predicate Exists(fs: FileSystem, p: string) {
    p in fs.dirs || p in fs.files
  }

  /** When none of the paths exists, the search loads nothing and raises nothing. */
  lemma {:induction false} RcNoneExist(st: State, paths: seq<string>, h: Home, fs: FileSystem)
    requires WellFormed(st)
    requires forall j :: 0 <= j < |paths| ==> !Exists(fs, paths[j])
    ensures LoadFirstRc(st, paths, h, fs) == Loaded(st, None)
    decreases |paths|
  {
    if paths != [] {
      assert forall j :: 0 <= j < |paths[1..]| ==> paths[1..][j] == paths[j + 1];
      RcNoneExist(st, paths[1..], h, fs);
    }
  }

  /** Paths that do not exist are passed over without touching the store. */
  lemma {:induction false} RcSkipsMissing(st: State, paths: seq<string>, i: nat, h: Home, fs: FileSystem)
    requires WellFormed(st) && i <= |paths|
    requires forall j :: 0 <= j < i ==> !Exists(fs, paths[j])
    ensures LoadFirstRc(st, paths, h, fs) == LoadFirstRc(st, paths[i..], h, fs)
    decreases i
  {
    if i > 0 {
      assert forall j :: 0 <= j < i - 1 ==> paths[1..][j] == paths[j + 1];
      RcSkipsMissing(st, paths[1..], i - 1, h, fs);
      assert paths[1..][i - 1..] == paths[i..];
    }
  }

  /**
   * The first path that exists decides: when it is a file whose loading
   * raises anything but `FileNotFoundError` (or nothing), the search is
   * exactly that load, as defaults, and no later path is looked at.
   */
  lemma RcFirstFileWins(st: State, paths: seq<string>, i: nat, h: Home, fs: FileSystem)
    requires WellFormed(st) && i < |paths|
    requires forall j :: 0 <= j < i ==> !Exists(fs, paths[j])
    requires paths[i] !in fs.dirs && paths[i] in fs.files
    requires var r := ApplyLoad(st, fs.files[paths[i]], true, h, fs); !(r.err.Some? && r.err.value.FileNotFound?)
    ensures LoadFirstRc(st, paths, h, fs) == ApplyLoad(st, fs.files[paths[i]], true, h, fs)
  {
    RcSkipsMissing(st, paths, i, h, fs);
    assert paths[i..][0] == paths[i];
  }

  /** A directory at the first existing path stops the search with `IsADirectoryError`. */
  lemma RcDirectoryStops(st: State, paths: seq<string>, i: nat, h: Home, fs: FileSystem)
    requires WellFormed(st) && i < |paths|
    requires forall j :: 0 <= j < i ==> !Exists(fs, paths[j])
    requires paths[i] in fs.dirs
    ensures LoadFirstRc(st, paths, h, fs) == Loaded(st, Some(IsADirectory(paths[i])))
  {
    RcSkipsMissing(st, paths, i, h, fs);
    assert paths[i..][0] == paths[i];
  }

  /**
   * A `FileNotFoundError` raised while loading the first existing file is
   * swallowed like a missing file, but what that file set before the error
   * stays set (as defaults), and the search goes on with the next path.
   */
  lemma RcFallsThrough(st: State, paths: seq<string>, i: nat, h: Home, fs: FileSystem)
    requires WellFormed(st) && i < |paths|
    requires forall j :: 0 <= j < i ==> !Exists(fs, paths[j])
    requires paths[i] !in fs.dirs && paths[i] in fs.files
    requires var r := ApplyLoad(st, fs.files[paths[i]], true, h, fs); r.err.Some? && r.err.value.FileNotFound?
    ensures LoadFirstRc(st, paths, h, fs) ==
      LoadFirstRc(ApplyLoad(st, fs.files[paths[i]], true, h, fs).state, paths[i + 1..], h, fs)
  {
    RcSkipsMissing(st, paths, i, h, fs);
    assert paths[i..][0] == paths[i] && paths[i..][1..] == paths[i + 1..];
  }

  /**
   * A defaults document that sets `buildpath` to a missing absolute
   * directory and then sets `build`: the `build` setter lists the missing
   * directory and raises `FileNotFoundError`, after `buildpath` was stored
   * as a default.
   */
  lemma MissingBuildPathLoad(st: State, p: string, b: Value, h: Home, fs: FileSystem)
    requires WellFormed(st) && p != "" && p[0] == '/' && !Exists(fs, p)
    ensures ApplyLoad(st, [("buildpath", Str(p)), ("build", b)], true, h, fs) ==
      Loaded(State(st.values["buildpath" := Str(p)], st.defaults + {"buildpath"}), Some(FileNotFound(p)))
  {
    assert p[..1] == [p[0]];
    assert ExpandUser(h, p) == p;
    var doc := [("buildpath", Str(p)), ("build", b)];
    var st1 := State(st.values["buildpath" := Str(p)], st.defaults + {"buildpath"});
    assert ApplyLoad(st, doc, true, h, fs) == ApplyLoad(st1, doc[1..], true, h, fs);
    assert ListBuilds(st1.values, h, fs) == Err(FileNotFound(p));
  }

  /**
   * So `__init__` can load both user-level defaults files: when
   * `~/.bugconfrc` sets a missing `buildpath` and then `build`, its
   * `buildpath` stays set as a default and the search goes on to
   * `~/.config/bugconf/config`, which is loaded on top.
   */
  lemma RcLoadsBothFiles(st: State, p: string, b: Value, h: Home, fs: FileSystem)
    requires WellFormed(st) && p != "" && p[0] == '/' && !Exists(fs, p)
    requires RcPaths(h)[0] !in fs.dirs && RcPaths(h)[0] in fs.files
    requires fs.files[RcPaths(h)[0]] == [("buildpath", Str(p)), ("build", b)]
    ensures var mid := State(st.values["buildpath" := Str(p)], st.defaults + {"buildpath"});
      LoadFirstRc(st, RcPaths(h), h, fs) == LoadFirstRc(mid, [RcPaths(h)[1]], h, fs)
  {
    MissingBuildPathLoad(st, p, b, h, fs);
    RcFallsThrough(st, RcPaths(h), 0, h, fs);
    assert RcPaths(h)[1..] == [RcPaths(h)[1]];
  }

  // ---------------------------------------------------------------------------
  // `reduce_file` stays expanded

  lemma UnsetSettled(h: Home)
    ensures Settled(Unset(), h)
  {
  }

  /** Every assignment keeps `reduce_file` settled: its setter stores an expanded path. */
  lemma AssignSettles(st: State, k: string, v: Value, h: Home, fs: FileSystem)
    requires WellFormed(st) && k in st.values && Sane(h) && Settled(st, h)
    requires Assign(st.values, k, v, h, fs).Ok?
    ensures forall d :: Settled(State(Assign(st.values, k, v, h, fs).value, d), h)
  {
    if k == "reduce_file" {
      ExpandIdempotent(h, v.s);
    }
  }

  /** `load` keeps `reduce_file` settled, whether or not it raises. */
  lemma {:induction false} LoadSettles(st: State, doc: Doc, d: bool, h: Home, fs: FileSystem)
    requires WellFormed(st) && Sane(h) && Settled(st, h)
    ensures Settled(ApplyLoad(st, doc, d, h, fs).state, h)
    decreases |doc|
  {
    if doc != [] {
      var (k, v) := doc[0];
      if k in st.values && Assign(st.values, k, v, h, fs).Ok? {
        var marks := if d then st.defaults + {k} else st.defaults - {k};
        AssignSettles(st, k, v, h, fs);
        LoadSettles(State(Assign(st.values, k, v, h, fs).value, marks), doc[1..], d, h, fs);
      }
    }
  }

  /** `load_args` keeps `reduce_file` settled, whether or not it raises. */
  lemma {:induction false} ArgsSettle(st: State, args: Doc, h: Home, fs: FileSystem)
    requires WellFormed(st) && Sane(h) && Settled(st, h)
    ensures Settled(ApplyArgs(st, args, h, fs).state, h)
    decreases |args|
  {
    if args != [] {
      var (k, v) := args[0];
      if k in st.values && v != Null {
        if Assign(st.values, k, v, h, fs).Ok? {
          AssignSettles(st, k, v, h, fs);
          ArgsSettle(State(Assign(st.values, k, v, h, fs).value, st.defaults - {k}), args[1..], h, fs);
        }
      } else {
        ArgsSettle(st, args[1..], h, fs);
      }
    }
  }
}
