/**
 * The option registry (`BugConf._CONFIGS`): every configurable option with its
 * short flag and declared type, and the values options hold. The help texts
 * are in module `RegistryHelp`.
 */
module Registry {
  import opened Wrappers
  import opened Text

  datatype OptType = BoolType | IntType | StrType

  datatype OptionSpec = OptionSpec(name: string, short: Option<string>, typ: OptType)

  /**
   * A value as a JSON document or the argument parser delivers it; `Null` is
   * Python's `None` ("unset"). Options are not type-checked on assignment, so
   * any option can hold any of these.
   */
  datatype Value = Null | Bool(b: bool) | Int(i: int) | Str(s: string)

  /** A key/value document in the order its keys were read (a parsed JSON object). */
  type Doc = seq<(string, Value)>

  /** Python truthiness of a value. */
  predicate Truthy(v: Value) {
    match v
    case Null => false
    case Bool(b) => b
    case Int(i) => i != 0
    case Str(s) => s != ""
  }

  /**
   * `_CONFIGS`, kept column by column in registry order.
   */
  const Names: seq<string> := [
    "any_crash",
    "build",
    "buildpath",
    "char",
    "extension",
    "extension_path",
    "gdb",
    "js",
    "logfn",
    "memory",
    "min_crashes",
    "no_harness",
    "prefs",
    "reduce_file",
    "reducer",
    "repeat",
    "safemode",
    "sig",
    "skip",
    "strategy",
    "symbol",
    "timeout",
    "valgrind",
    "xvfb"
  ]

  const Shorts: seq<Option<string>> := [
    None,
    Some("b"),
    Some("bp"),
    Some("c"),
    Some("e"),
    None,
    Some("g"),
    Some("j"),
    Some("l"),
    Some("m"),
    Some("n"),
    None,
    Some("p"),
    Some("rf"),
    None,
    None,
    None,
    None,
    None,
    None,
    None,
    Some("t"),
    None,
    None
  ]

  const Types: seq<OptType> := [
    BoolType,
    StrType,
    StrType,
    BoolType,
    BoolType,
    StrType,
    BoolType,
    BoolType,
    StrType,
    IntType,
    IntType,
    BoolType,
    StrType,
    StrType,
    StrType,
    IntType,
    BoolType,
    StrType,
    IntType,
    StrType,
    BoolType,
    IntType,
    BoolType,
    BoolType
  ]

  /** The registry as one entry per option. */
  function Configs(): (cs: seq<OptionSpec>)
    ensures |cs| == |Names| == 24
    ensures forall i :: 0 <= i < |cs| ==> cs[i] == OptionSpec(Names[i], Shorts[i], Types[i])
  {
    seq(|Names|, i requires 0 <= i < |Names| => OptionSpec(Names[i], Shorts[i], Types[i]))
  }

  /** `cfg in _CONFIGS` */
  predicate Registered(key: string) {
    key in Names
  }

  /** The option names as a set, for stating what a store holds. */
  ghost const NameSet: set<string> := set i | 0 <= i < |Names| :: Names[i]

  /** From position `k` on, each name is below the next one. */
  predicate ChainedFrom(s: seq<string>, k: nat)
    decreases |s| - k
  {
    k + 1 >= |s| || (Less(s[k], s[k + 1]) && ChainedFrom(s, k + 1))
  }

  lemma {:induction false} ChainedStrictlySorted(s: seq<string>, k: nat)
    requires k <= |s| && ChainedFrom(s, k)
    ensures forall i, j :: k <= i < j < |s| ==> Less(s[i], s[j])
    decreases |s| - k
  {
    if k + 1 < |s| {
      ChainedStrictlySorted(s, k + 1);
      forall j | k + 1 < j < |s| ensures Less(s[k], s[j]) {
        LessTransitive(s[k], s[k + 1], s[j]);
      }
    }
  }

  lemma NamesChainedFrom20()
    ensures ChainedFrom(Names, 20)
  {
    assert ChainedFrom(Names, 23);
    assert ChainedFrom(Names, 22);
    assert ChainedFrom(Names, 21);
    assert ChainedFrom(Names, 20);
  }

  lemma NamesChainedFrom17()
    ensures ChainedFrom(Names, 17)
  {
    NamesChainedFrom20();
    assert ChainedFrom(Names, 19);
    assert ChainedFrom(Names, 18);
    assert ChainedFrom(Names, 17);
  }

  lemma NamesChainedFrom14()
    ensures ChainedFrom(Names, 14)
  {
    NamesChainedFrom17();
    assert ChainedFrom(Names, 16);
    assert ChainedFrom(Names, 15);
    assert ChainedFrom(Names, 14);
  }

  lemma NamesStep13()
    ensures Less(Names[13], Names[14])
  {
    assert Names[13] == "reduce_file" && Names[14] == "reducer";
    assert Less("reduce_file", "reducer");
  }

  lemma NamesChainedFrom13()
    ensures ChainedFrom(Names, 13)
  {
    NamesChainedFrom14();
    NamesStep13();
  }

  lemma NamesChainedFrom11()
    ensures ChainedFrom(Names, 11)
  {
    NamesChainedFrom13();
    assert ChainedFrom(Names, 12);
    assert ChainedFrom(Names, 11);
  }

  lemma NamesChainedFrom8()
    ensures ChainedFrom(Names, 8)
  {
    NamesChainedFrom11();
    assert ChainedFrom(Names, 10);
    assert ChainedFrom(Names, 9);
    assert ChainedFrom(Names, 8);
  }

  lemma NamesChainedFrom5()
    ensures ChainedFrom(Names, 5)
  {
    NamesChainedFrom8();
    assert ChainedFrom(Names, 7);
    assert ChainedFrom(Names, 6);
    assert ChainedFrom(Names, 5);
  }

  lemma NamesChainedFrom4()
    ensures ChainedFrom(Names, 4)
  {
    NamesChainedFrom5();
    assert Names[4] == "extension" && Names[5] == "extension_path";
    assert Less("extension", "extension_path");
  }

  lemma NamesChainedFrom3()
    ensures ChainedFrom(Names, 3)
  {
    NamesChainedFrom4();
    assert ChainedFrom(Names, 3);
  }

  lemma NamesChainedFrom1()
    ensures ChainedFrom(Names, 1)
  {
    NamesChainedFrom3();
    assert ChainedFrom(Names, 2);
    assert ChainedFrom(Names, 1);
  }

  lemma NamesChainedFrom0()
    ensures ChainedFrom(Names, 0)
  {
    NamesChainedFrom1();
    assert ChainedFrom(Names, 0);
  }

  /**
   * The registry is written in ascending name order, so iterating `_CONFIGS`
   * visits the options in the same order `json.dump(sort_keys=True)` writes them.
   */
  lemma RegistrySorted()
    ensures StrictlySorted(Names)
  {
    NamesChainedFrom0();
    ChainedStrictlySorted(Names, 0);
  }

  lemma RegistryDistinct()
    ensures forall i, j :: 0 <= i < j < |Names| ==> Names[i] != Names[j]
  {
    RegistrySorted();
    forall i, j | 0 <= i < j < |Names| ensures Names[i] != Names[j] {
      assert Less(Names[i], Names[j]);
      LessIrreflexive(Names[i]);
    }
  }
}
