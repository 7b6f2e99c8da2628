/**
 * `parse_args` and `main`: the command-line parser derived from the option
 * registry, the namespace it hands to `load_args`, how `main` applies the
 * `bugconf` file of the working directory and the command line, and which
 * command it runs for each program name.
 */
module Cli {
  import opened Wrappers
  import opened Text
  import opened Registry
  import opened Paths
  import opened Config
  import ConfigProperties

  // ---------------------------------------------------------------------------
  // The parser.

  datatype Action = Store | StoreTrue

  /**
   * What one `add_argument` call records: an optional argument with its
   * option strings, the attribute it is stored under, its action, type
   * conversion and default; or a positional one. Help texts are kept
   * apart (module `RegistryHelp`): argparse only prints them.
   */
  datatype Argument =
    | Optional(strings: seq<string>, dest: string, action: Action, conv: Option<OptType>, default: Value)
    | Positional(dest: string)

  /** `"--%s" % cfg.replace("_", "-")` */
  function LongFlag(name: string): string {
    "--" + Replace(name, '_', '-')
  }

  /** `"-%s" % short` */
  function ShortFlag(short: string): string {
    "-" + short
  }

  /** A long option string and, when there is one, a short one. */
  function FlagStrings(name: string, short: Option<string>): seq<string> {
    [LongFlag(name)] + (if short.Some? then [ShortFlag(short.value)] else [])
  }

  function DropDashes(s: string): (r: string)
    ensures |r| <= |s|
  {
    if |s| > 0 && s[0] == '-' then DropDashes(s[1..]) else s
  }

  /** The first option string that starts with `--`, or else the first one. */
  function Principal(strings: seq<string>): string {
    if strings == [] then ""
    else if StartsWith(strings[0], "--") || |strings| == 1 then strings[0]
    else
      var rest := Principal(strings[1..]);
      if StartsWith(rest, "--") then rest else strings[0]
  }

  /**
   * The attribute argparse stores an optional argument under: its principal
   * option string without leading dashes and with `-` read as `_`.
   */
  function DestOf(strings: seq<string>): string {
    Replace(DropDashes(Principal(strings)), '-', '_')
  }

  /** `add_argument(*strings, action=..., type=..., default=...)` */
  function AddOptional(strings: seq<string>, action: Action, conv: Option<OptType>, default: Value): Argument {
    Optional(strings, DestOf(strings), action, conv, default)
  }

  /** What `parse_args` declares for one registry entry. */
  function OptionArgument(c: OptionSpec): Argument {
    AddOptional(
      FlagStrings(c.name, c.short),
      if c.typ == BoolType then StoreTrue else Store,
      if c.typ == BoolType then None else Some(c.typ),
      Null)
  }

  function OptionArguments(cs: seq<OptionSpec>): (p: seq<Argument>)
    ensures |p| == |cs|
  {
    seq(|cs|, i requires 0 <= i < |cs| => OptionArgument(cs[i]))
  }

  /** The program names whose command takes a testcase. */
  predicate TakesTestcase(cmd: string) {
    cmd == "bcrepro" || cmd == "bcreduce"
  }

  const Testcase: Argument := Positional("testcase")
  /**
   * `--write`/`-w` and `--verbose`/`-v`: flags defaulting to false, written
   * out as `add_argument` builds them (see `WriteDeclared` and `VerboseDeclared`).
   */
  const Write: Argument := Optional(["--write", "-w"], "write", StoreTrue, None, Bool(false))
  const Verbose: Argument := Optional(["--verbose", "-v"], "verbose", StoreTrue, None, Bool(false))

  /** The arguments `parse_args` adds after the registry's. */
  function Extras(cmd: string): seq<Argument> {
    ExtrasFor(TakesTestcase(cmd))
  }

  /** The extra arguments, with or without the `testcase` positional. */
  function ExtrasFor(testcase: bool): seq<Argument> {
    (if testcase then [Testcase] else []) + [Write, Verbose]
  }

  /** `parse_args(cmd)`: the arguments of the parser, in the order they are added. */
  function Parser(cmd: string): seq<Argument> {
    OptionArguments(Configs()) + Extras(cmd)
  }

  /** The value an argument has when the command line does not give it. */
  function Default(a: Argument): Value {
    match a
    case Optional(_, _, _, _, d) => d
    case Positional(_) => Null
  }

  /**
   * `vars(parser.parse_args())`: every argument's destination, in the order
   * the arguments were added, holding the parsed value when the command line
   * gave one (`given`, by destination) and its default otherwise.
   */
  function Namespace(p: seq<Argument>, given: map<string, Value>): (ns: Doc)
    ensures |ns| == |p| && forall i :: 0 <= i < |p| ==> ns[i].0 == p[i].dest
  {
    if p == [] then []
    else
      var d := p[0].dest;
      [(d, if d in given then given[d] else Default(p[0]))] + Namespace(p[1..], given)
  }

  // ---------------------------------------------------------------------------
  // What makes a registry declarable.

  /**
   * A registry entry argparse can declare next to `testcase`, `--write` and
   * `--verbose`: its name has no `-` and does not start with `_` (so the
   * destination argparse derives from the long option is the name again) and
   * is none of those three; its short option is a plain name other than `w`
   * and `v`.
   */
  predicate Plain(c: OptionSpec) {
    && c.name != "" && c.name[0] != '_' && '-' !in c.name
    && c.name != "testcase" && c.name != "write" && c.name != "verbose"
    && (c.short.Some? ==> c.short.value != "" && c.short.value[0] != '-' && c.short.value != "w" && c.short.value != "v")
  }

  /** Every entry is plain, and no two entries share a name or a short option. */
  ghost predicate Declarable(cs: seq<OptionSpec>) {
    && (forall i :: 0 <= i < |cs| ==> Plain(cs[i]))
    && (forall i, j :: 0 <= i < j < |cs| ==> cs[i].name != cs[j].name)
    && (forall i, j :: 0 <= i < j < |cs| && cs[i].short.Some? && cs[j].short.Some? ==> cs[i].short.value != cs[j].short.value)
  }

  /** The registry position whose short option is `s`, or -1; it looks only at the first letter and the length. */
  ghost function ShortOwner(s: string): int {
    if |s| == 0 then -1
    else if |s| == 2 then (if s[0] == 'b' then 2 else if s[0] == 'r' then 13 else -1)
    else if |s| != 1 then -1
    else match s[0]
      case 'b' => 1
      case 'c' => 3
      case 'e' => 4
      case 'g' => 6
      case 'j' => 7
      case 'l' => 8
      case 'm' => 9
      case 'n' => 10
      case 'p' => 12
      case 't' => 21
      case _ => -1
  }

  ghost predicate OwnsShort(k: int) {
    0 <= k < |Shorts| && (Shorts[k].Some? ==> ShortOwner(Shorts[k].value) == k)
  }

  lemma ShortsOwned0()
    ensures OwnsShort(0) && OwnsShort(1) && OwnsShort(2) && OwnsShort(3) && OwnsShort(4) && OwnsShort(5)
  {
  }

  lemma ShortsOwned6()
    ensures OwnsShort(6) && OwnsShort(7) && OwnsShort(8) && OwnsShort(9) && OwnsShort(10) && OwnsShort(11)
  {
  }

  lemma ShortsOwned12()
    ensures OwnsShort(12) && OwnsShort(13) && OwnsShort(14) && OwnsShort(15) && OwnsShort(16) && OwnsShort(17)
  {
  }

  lemma ShortsOwned18()
    ensures OwnsShort(18) && OwnsShort(19) && OwnsShort(20) && OwnsShort(21) && OwnsShort(22) && OwnsShort(23)
  {
  }

  /** A declared short option identifies its registry entry. */
  lemma ShortsDistinct()
    ensures forall i, j :: 0 <= i < j < |Shorts| && Shorts[i].Some? && Shorts[j].Some? ==> Shorts[i].value != Shorts[j].value
  {
    ShortsOwned0();
    ShortsOwned6();
    ShortsOwned12();
    ShortsOwned18();
    forall i | 0 <= i < |Shorts| ensures OwnsShort(i) {
      assert i == 0 || i == 1 || i == 2 || i == 3 || i == 4 || i == 5 || i == 6 || i == 7
        || i == 8 || i == 9 || i == 10 || i == 11 || i == 12 || i == 13 || i == 14 || i == 15
        || i == 16 || i == 17 || i == 18 || i == 19 || i == 20 || i == 21 || i == 22 || i == 23;
    }
  }

  /** Each option name is non-empty, does not start with `_` and has no `-`. */
  lemma NamesPlain()
    ensures forall i :: 0 <= i < |Names| ==> Names[i] != "" && Names[i][0] != '_' && '-' !in Names[i]
  {
    NamesStart();
    NamesDashFree();
    forall i | 0 <= i < |Names| ensures '-' !in Names[i] {
      assert Names[i] in Names;
    }
  }

  lemma DashFree0()
    ensures '-' !in "any_crash"
    ensures '-' !in "build"
    ensures '-' !in "buildpath"
    ensures '-' !in "char"
    ensures '-' !in "extension"
    ensures '-' !in "extension_path"
  {
  }

  lemma DashFree6()
    ensures '-' !in "gdb"
    ensures '-' !in "js"
    ensures '-' !in "logfn"
    ensures '-' !in "memory"
    ensures '-' !in "min_crashes"
    ensures '-' !in "no_harness"
  {
  }

  lemma DashFree12()
    ensures '-' !in "prefs"
    ensures '-' !in "reduce_file"
    ensures '-' !in "reducer"
    ensures '-' !in "repeat"
    ensures '-' !in "safemode"
    ensures '-' !in "sig"
  {
  }

  lemma DashFree18()
    ensures '-' !in "skip"
    ensures '-' !in "strategy"
    ensures '-' !in "symbol"
    ensures '-' !in "timeout"
    ensures '-' !in "valgrind"
    ensures '-' !in "xvfb"
  {
  }

  /** No option name contains `-`. */
  lemma NamesDashFree()
    ensures forall k :: k in Names ==> '-' !in k
  {
    DashFree0();
    DashFree6();
    DashFree12();
    DashFree18();
  }

  lemma NamesStart()
    ensures forall i :: 0 <= i < |Names| ==> Names[i] != "" && Names[i][0] != '_'
  {
    forall i | 0 <= i < |Names| ensures Names[i] != "" && Names[i][0] != '_' {
      assert Names[i] in Names;
    }
  }

  /** No option is named `testcase`, `write` or `verbose`. */
  lemma NamesNotExtra()
    ensures forall i :: 0 <= i < |Names| ==> !ExtraName(Names[i])
  {
    ConfigProperties.CliExtrasUnregistered();
    forall i | 0 <= i < |Names| ensures !ExtraName(Names[i]) {
      assert Names[i] in Names;
    }
  }

  lemma ShortsPlain()
    ensures forall i :: 0 <= i < |Shorts| && Shorts[i].Some? ==>
      Shorts[i].value != "" && Shorts[i].value[0] != '-' && Shorts[i].value != "w" && Shorts[i].value != "v"
  {
    forall i | 0 <= i < |Shorts| && Shorts[i].Some?
      ensures Shorts[i].value != "" && Shorts[i].value[0] != '-' && Shorts[i].value != "w" && Shorts[i].value != "v"
    {
      assert Shorts[i] in Shorts;
    }
  }

  /** `_CONFIGS` can be declared: plain names and short options, none of them twice. */
  lemma RegistryDeclarable()
    ensures Declarable(Configs())
  {
    var cs := Configs();
    NamesPlain();
    NamesNotExtra();
    ShortsPlain();
    RegistryDistinct();
    ShortsDistinct();
    assert forall i :: 0 <= i < |cs| ==> cs[i].name == Names[i] && cs[i].short == Shorts[i];
  }

  // ---------------------------------------------------------------------------
  // Destinations: each option is parsed into the attribute `load_args` looks up.

  /** A plain option name is recovered from its long option string. */
  lemma LongFlagDest(name: string)
    requires name != "" && name[0] != '_' && '-' !in name
    ensures Replace(DropDashes(LongFlag(name)), '-', '_') == name
  {
    var r := Replace(name, '_', '-');
    assert r[0] == name[0];
    assert LongFlag(name)[1..][1..] == r;
    assert DropDashes(LongFlag(name)[1..][1..]) == r;
    assert DropDashes(LongFlag(name)) == r;
    ReplaceInverse(name, '_', '-');
  }

  /** The destination of a long option and its short one is the plain name. */
  lemma FlagsDest(name: string, short: Option<string>)
    requires name != "" && name[0] != '_' && '-' !in name
    ensures DestOf(FlagStrings(name, short)) == name
  {
    assert StartsWith(LongFlag(name), "--");
    assert Principal(FlagStrings(name, short)) == LongFlag(name);
    LongFlagDest(name);
  }

  lemma OptionArgumentDest(c: OptionSpec)
    requires Plain(c)
    ensures OptionArgument(c).dest == c.name
  {
    FlagsDest(c.name, c.short);
  }

  /** The long option string of a name with no `_` is the name after two dashes. */
  lemma LongFlagPlain(name: string)
    requires '_' !in name
    ensures LongFlag(name) == "--" + name
  {
    ReplaceAbsent(name, '_', '-');
  }

  /** A `store_true` flag with a plain name and a short option, as `add_argument` builds it. */
  lemma FlagDeclared(name: string, short: string, long: string, flag: string)
    requires name != "" && name[0] != '_' && '-' !in name && '_' !in name
    requires long == "--" + name && flag == "-" + short
    ensures FlagStrings(name, Some(short)) == [long, flag]
    ensures AddOptional([long, flag], StoreTrue, None, Bool(false)) == Optional([long, flag], name, StoreTrue, None, Bool(false))
  {
    FlagsDest(name, Some(short));
    LongFlagPlain(name);
  }

  /** `add_argument("--write", "-w", action="store_true", ...)` builds `Write`. */
  lemma WriteDeclared()
    ensures Write == AddOptional(FlagStrings("write", Some("w")), StoreTrue, None, Bool(false))
  {
    var w := "write";
    assert w[0] == 'w' && '-' !in w && '_' !in w;
    assert "--" + w == "--write" && "-" + "w" == "-w";
    FlagDeclared(w, "w", "--write", "-w");
  }

  /** `add_argument("--verbose", "-v", action="store_true", ...)` builds `Verbose`. */
  lemma VerboseDeclared()
    ensures Verbose == AddOptional(FlagStrings("verbose", Some("v")), StoreTrue, None, Bool(false))
  {
    var v := "verbose";
    assert v[0] == 'v' && '-' !in v && '_' !in v;
    assert "--" + v == "--verbose" && "-" + "v" == "-v";
    FlagDeclared(v, "v", "--verbose", "-v");
  }

  /** The destinations of the arguments added after the registry's, in order. */
  function ExtraNames(testcase: bool): seq<string> {
    (if testcase then ["testcase"] else []) + ["write", "verbose"]
  }

  lemma ExtrasNamed(testcase: bool)
    ensures |ExtrasFor(testcase)| == |ExtraNames(testcase)|
    ensures forall i :: 0 <= i < |ExtrasFor(testcase)| ==> ExtrasFor(testcase)[i].dest == ExtraNames(testcase)[i]
  {
    if testcase {
      assert ExtrasFor(testcase) == [Testcase, Write, Verbose];
      assert ExtraNames(testcase) == ["testcase", "write", "verbose"];
    } else {
      assert ExtrasFor(testcase) == [Write, Verbose];
      assert ExtraNames(testcase) == ["write", "verbose"];
    }
  }

  /** One of the destinations `parse_args` adds after the registry's. */
  predicate ExtraName(s: string) {
    s == "testcase" || s == "write" || s == "verbose"
  }

  lemma ExtraNamesDistinct(testcase: bool)
    ensures |ExtraNames(testcase)| == if testcase then 3 else 2
    ensures forall i :: 0 <= i < |ExtraNames(testcase)| ==> ExtraName(ExtraNames(testcase)[i])
    ensures forall i, j :: 0 <= i < j < |ExtraNames(testcase)| ==> ExtraNames(testcase)[i] != ExtraNames(testcase)[j]
    ensures "testcase" in ExtraNames(testcase) <==> testcase
  {
    var t, w, v := "testcase", "write", "verbose";
    assert |t| == 8 && |w| == 5 && |v| == 7;
    if testcase {
      assert ExtraNames(testcase) == [t, w, v];
    } else {
      assert ExtraNames(testcase) == [w, v];
    }
  }

  /** The destinations of the arguments added after the registry's. */
  lemma ExtrasDests(testcase: bool)
    ensures |ExtrasFor(testcase)| == if testcase then 3 else 2
    ensures forall i :: 0 <= i < |ExtrasFor(testcase)| ==> ExtraName(ExtrasFor(testcase)[i].dest)
    ensures forall i, j :: 0 <= i < j < |ExtrasFor(testcase)| ==> ExtrasFor(testcase)[i].dest != ExtrasFor(testcase)[j].dest
    ensures (exists i :: 0 <= i < |ExtrasFor(testcase)| && ExtrasFor(testcase)[i].dest == "testcase") <==> testcase
  {
    ExtrasNamed(testcase);
    ExtraNamesDistinct(testcase);
    var e, n := ExtrasFor(testcase), ExtraNames(testcase);
    if testcase {
      assert n[0] == "testcase";
      assert e[0].dest == "testcase";
    } else {
      forall i | 0 <= i < |e| ensures e[i].dest != "testcase" {
        assert n[i] in n;
      }
    }
  }

  /** For any declarable registry, each entry's argument has the entry's name as destination. */
  lemma {:induction false} OptionDests(cs: seq<OptionSpec>)
    requires forall i :: 0 <= i < |cs| ==> Plain(cs[i])
    ensures forall i :: 0 <= i < |cs| ==> OptionArguments(cs)[i].dest == cs[i].name
  {
    forall i | 0 <= i < |cs| ensures OptionArguments(cs)[i].dest == cs[i].name {
      OptionArgumentDest(cs[i]);
    }
  }

  lemma OptionsFirst(cs: seq<OptionSpec>, e: seq<Argument>)
    requires forall i :: 0 <= i < |cs| ==> Plain(cs[i])
    ensures forall i :: 0 <= i < |cs| ==> (OptionArguments(cs) + e)[i].dest == cs[i].name
  {
    var opts := OptionArguments(cs);
    OptionDests(cs);
    forall i | 0 <= i < |cs| ensures (opts + e)[i].dest == cs[i].name {
      assert (opts + e)[i] == opts[i];
    }
  }

  /** Distinct option names followed by distinct extra names that are not option names: all distinct. */
  lemma DestsDistinct(names: seq<string>, extra: seq<string>, p: seq<Argument>)
    requires |p| == |names| + |extra|
    requires forall i :: 0 <= i < |names| ==> p[i].dest == names[i]
    requires forall i :: |names| <= i < |p| ==> p[i].dest == extra[i - |names|]
    requires forall i, j :: 0 <= i < j < |names| ==> names[i] != names[j]
    requires forall i, j :: 0 <= i < j < |extra| ==> extra[i] != extra[j]
    requires forall i :: 0 <= i < |names| ==> !ExtraName(names[i])
    requires forall i :: 0 <= i < |extra| ==> ExtraName(extra[i])
    ensures forall i, j :: 0 <= i < j < |p| ==> p[i].dest != p[j].dest
  {
    forall i, j | 0 <= i < j < |p| ensures p[i].dest != p[j].dest {
      if i >= |names| {
        assert p[j].dest == extra[j - |names|];
      } else if j >= |names| {
        assert ExtraName(extra[j - |names|]);
      }
    }
  }

  /** The registry's options are parsed into attributes named after them, in registry order. */
  lemma ParserOptionDests(cmd: string)
    ensures |Parser(cmd)| == |Names| + |Extras(cmd)|
    ensures forall i :: 0 <= i < |Names| ==> Parser(cmd)[i].dest == Names[i]
  {
    RegistryDeclarable();
    RegistryNames();
    OptionsFirst(Configs(), Extras(cmd));
  }

  /** After the options come the destinations `testcase` (for `bcrepro` and `bcreduce`), `write` and `verbose`. */
  lemma ParserExtraDests(cmd: string)
    ensures |Parser(cmd)| == |Names| + |ExtraNames(TakesTestcase(cmd))|
    ensures forall i :: |Names| <= i < |Parser(cmd)| ==> Parser(cmd)[i].dest == ExtraNames(TakesTestcase(cmd))[i - |Names|]
  {
    var t := TakesTestcase(cmd);
    ParserSplit(cmd);
    ExtrasNamed(t);
    AppendedDests(Parser(cmd), OptionArguments(Configs()), ExtrasFor(t), ExtraNames(t), |Names|);
  }

  lemma AppendedDests(p: seq<Argument>, opts: seq<Argument>, e: seq<Argument>, n: seq<string>, k: nat)
    requires p == opts + e && |opts| == k
    requires |e| == |n| && forall j :: 0 <= j < |e| ==> e[j].dest == n[j]
    ensures |p| == k + |n|
    ensures forall i :: k <= i < |p| ==> p[i].dest == n[i - k]
  {
    forall i | k <= i < |p| ensures p[i].dest == n[i - k] {
      assert p[i] == e[i - k];
    }
  }

  lemma ParserSplit(cmd: string)
    ensures Parser(cmd) == OptionArguments(Configs()) + ExtrasFor(TakesTestcase(cmd))
    ensures |OptionArguments(Configs())| == |Names|
  {
  }

  /** No two arguments of the parser share a destination. */
  lemma ParserDestsDistinct(cmd: string)
    ensures forall i, j :: 0 <= i < j < |Parser(cmd)| ==> Parser(cmd)[i].dest != Parser(cmd)[j].dest
  {
    ParserOptionDests(cmd);
    ParserExtraDests(cmd);
    ExtraNamesDistinct(TakesTestcase(cmd));
    RegistryDistinct();
    NamesNotExtra();
    DestsDistinct(Names, ExtraNames(TakesTestcase(cmd)), Parser(cmd));
  }

  /**
   * The arguments after the options (`testcase`, `write`, `verbose`) are
   * parsed into attributes that are not options, so `load_args` ignores them.
   */
  lemma ParserExtrasUnregistered(cmd: string)
    ensures forall i :: |Names| <= i < |Parser(cmd)| ==> !Registered(Parser(cmd)[i].dest)
  {
    var n := ExtraNames(TakesTestcase(cmd));
    ParserExtraDests(cmd);
    ExtraNamesDistinct(TakesTestcase(cmd));
    ConfigProperties.CliExtrasUnregistered();
    forall i | |Names| <= i < |Parser(cmd)| ensures !Registered(Parser(cmd)[i].dest) {
      assert ExtraName(n[i - |Names|]);
    }
  }

  // ---------------------------------------------------------------------------
  // Option strings: argparse refuses a parser that declares one twice.

  function Strings(a: Argument): seq<string> {
    if a.Optional? then a.strings else []
  }

  /** No option string is declared twice, within one argument or across two. */
  ghost predicate NoConflicts(p: seq<Argument>) {
    && (forall i, j, x :: 0 <= i < |p| && 0 <= j < |p| && i != j && x in Strings(p[i]) ==> x !in Strings(p[j]))
    && (forall i, m, n :: 0 <= i < |p| && 0 <= m < n < |Strings(p[i])| ==> Strings(p[i])[m] != Strings(p[i])[n])
  }

  lemma LongFlagInjective(a: string, b: string)
    requires '-' !in a && '-' !in b && LongFlag(a) == LongFlag(b)
    ensures a == b
  {
    assert LongFlag(a)[2..] == Replace(a, '_', '-');
    assert LongFlag(b)[2..] == Replace(b, '_', '-');
    ReplaceInverse(a, '_', '-');
    ReplaceInverse(b, '_', '-');
  }

  /** A long option string and a short one never coincide. */
  lemma LongNotShort(name: string, short: string)
    requires short != "" && short[0] != '-'
    ensures LongFlag(name) != ShortFlag(short)
  {
    assert LongFlag(name)[1] == '-';
    assert ShortFlag(short)[1] == short[0];
  }

  lemma ShortFlagInjective(a: string, b: string)
    requires ShortFlag(a) == ShortFlag(b)
    ensures a == b
  {
    assert a == ShortFlag(a)[1..];
  }

  /** A short option that is a plain name, if there is one. */
  predicate PlainShort(short: Option<string>) {
    short.Some? ==> short.value != "" && short.value[0] != '-'
  }

  /** The option strings of one argument are different from each other. */
  lemma FlagsDistinct(name: string, short: Option<string>)
    requires PlainShort(short)
    ensures forall m, n :: 0 <= m < n < |FlagStrings(name, short)| ==> FlagStrings(name, short)[m] != FlagStrings(name, short)[n]
  {
    if short.Some? {
      LongNotShort(name, short.value);
    }
  }

  /** Two arguments with different names and different short options share no option string. */
  lemma FlagsApart(a: string, sa: Option<string>, b: string, sb: Option<string>, x: string)
    requires '-' !in a && '-' !in b && a != b && PlainShort(sa) && PlainShort(sb)
    requires sa.Some? && sb.Some? ==> sa.value != sb.value
    requires x in FlagStrings(a, sa)
    ensures x !in FlagStrings(b, sb)
  {
    if x == LongFlag(a) {
      if x == LongFlag(b) {
        LongFlagInjective(a, b);
      }
      if sb.Some? {
        LongNotShort(a, sb.value);
      }
    } else {
      assert sa.Some? && x == ShortFlag(sa.value);
      LongNotShort(b, sa.value);
      if sb.Some? && x == ShortFlag(sb.value) {
        ShortFlagInjective(sa.value, sb.value);
      }
    }
  }

  /** The option strings of `--write`: the flags argparse builds for the name `write`. */
  lemma WriteFlags()
    ensures Strings(Write) == FlagStrings("write", Some("w"))
    ensures '-' !in "write" && PlainShort(Some("w"))
  {
    var w := "write";
    assert w[0] == 'w' && '-' !in w && '_' !in w;
    assert "--" + w == "--write" && "-" + "w" == "-w";
    FlagDeclared(w, "w", "--write", "-w");
  }

  /** The option strings of `--verbose`: the flags argparse builds for the name `verbose`. */
  lemma VerboseFlags()
    ensures Strings(Verbose) == FlagStrings("verbose", Some("v"))
    ensures '-' !in "verbose" && PlainShort(Some("v"))
  {
    var v := "verbose";
    assert v[0] == 'v' && '-' !in v && '_' !in v;
    assert "--" + v == "--verbose" && "-" + "v" == "-v";
    FlagDeclared(v, "v", "--verbose", "-v");
  }

  lemma FlagsDiffer()
    ensures "write" != "verbose" && "w" != "v"
  {
    var w, v := "write", "verbose";
    assert |w| != |v|;
    assert "w"[0] != "v"[0];
  }

  lemma OptionVersusExtra(c: OptionSpec, a: Argument, x: string)
    requires Plain(c) && (a == Testcase || a == Write || a == Verbose)
    requires x in Strings(OptionArgument(c))
    ensures x !in Strings(a)
  {
    if a == Write {
      WriteFlags();
      FlagsApart(c.name, c.short, "write", Some("w"), x);
    } else if a == Verbose {
      VerboseFlags();
      FlagsApart(c.name, c.short, "verbose", Some("v"), x);
    }
  }

  lemma ExtrasNoConflict(a: Argument, b: Argument, x: string)
    requires a == Testcase || a == Write || a == Verbose
    requires b == Testcase || b == Write || b == Verbose
    requires a != b && x in Strings(a)
    ensures x !in Strings(b)
  {
    WriteFlags();
    VerboseFlags();
    FlagsDiffer();
    if a == Write && b == Verbose {
      FlagsApart("write", Some("w"), "verbose", Some("v"), x);
    } else if a == Verbose && b == Write {
      FlagsApart("verbose", Some("v"), "write", Some("w"), x);
    }
  }

  /** The parser for a declarable registry declares no option string twice. */
  lemma DeclarableConsistent(cs: seq<OptionSpec>, e: seq<Argument>)
    requires Declarable(cs)
    requires forall k :: 0 <= k < |e| ==> e[k] == Testcase || e[k] == Write || e[k] == Verbose
    requires forall k, l :: 0 <= k < l < |e| ==> e[k] != e[l]
    ensures NoConflicts(OptionArguments(cs) + e)
  {
    var opts := OptionArguments(cs);
    var p := opts + e;
    forall i, j, x | 0 <= i < |p| && 0 <= j < |p| && i != j && x in Strings(p[i]) ensures x !in Strings(p[j]) {
      if i < |opts| {
        assert p[i] == OptionArgument(cs[i]);
        if j < |opts| {
          assert p[j] == OptionArgument(cs[j]);
          FlagsApart(cs[i].name, cs[i].short, cs[j].name, cs[j].short, x);
        } else {
          assert p[j] == e[j - |opts|];
          OptionVersusExtra(cs[i], p[j], x);
        }
      } else {
        assert p[i] == e[i - |opts|];
        if j < |opts| {
          assert p[j] == OptionArgument(cs[j]);
          if x in Strings(p[j]) {
            OptionVersusExtra(cs[j], p[i], x);
          }
        } else {
          assert p[j] == e[j - |opts|];
          ExtrasNoConflict(p[i], p[j], x);
        }
      }
    }
    forall i, m, n | 0 <= i < |p| && 0 <= m < n < |Strings(p[i])| ensures Strings(p[i])[m] != Strings(p[i])[n] {
      if i < |opts| {
        assert p[i] == OptionArgument(cs[i]);
        FlagsDistinct(cs[i].name, cs[i].short);
      } else {
        assert p[i] == e[i - |opts|];
        if p[i] == Write {
          WriteFlags();
          FlagsDistinct("write", Some("w"));
        } else if p[i] == Verbose {
          VerboseFlags();
          FlagsDistinct("verbose", Some("v"));
        }
      }
    }
  }

  /**
   * No option string is declared twice, so building the parser does not
   * raise argparse's conflicting-option error for any program name. The
   * `-h`/`--help` option argparse adds by itself is not among the declared
   * arguments here.
   */
  lemma ParserConsistent(cmd: string)
    ensures NoConflicts(Parser(cmd))
  {
    RegistryDeclarable();
    DeclarableConsistent(Configs(), Extras(cmd));
  }

  // ---------------------------------------------------------------------------
  // What load_args receives.

  /** The options the command line gives a value, in registry order. */
  function Given(names: seq<string>, given: map<string, Value>): (d: Doc)
    ensures forall e :: e in d ==> e.0 in names && e.0 in given && e.1 == given[e.0] && e.1 != Null
    ensures forall k :: k in names && k in given && given[k] != Null ==> (k, given[k]) in d
  {
    if names == [] then []
    else
      (if names[0] in given && given[names[0]] != Null then [(names[0], given[names[0]])] else [])
        + Given(names[1..], given)
  }

  lemma {:induction false} GivenDistinct(names: seq<string>, given: map<string, Value>)
    requires forall i, j :: 0 <= i < j < |names| ==> names[i] != names[j]
    ensures DistinctKeys(Given(names, given))
    decreases |names|
  {
    if names != [] {
      var tail := names[1..];
      GivenDistinct(tail, given);
      var rest := Given(tail, given);
      forall m | 0 <= m < |rest| ensures rest[m].0 != names[0] {
        assert rest[m] in rest;
        var j :| 0 <= j < |tail| && tail[j] == rest[m].0;
        assert tail[j] == names[j + 1];
      }
    }
  }

  lemma {:induction false} ApplicableConcat(opts: set<string>, a: Doc, b: Doc)
    ensures ConfigProperties.Applicable(opts, a + b)
      == ConfigProperties.Applicable(opts, a) + ConfigProperties.Applicable(opts, b)
    decreases |a|
  {
    if a == [] {
      assert a + b == b;
    } else {
      assert (a + b)[0] == a[0] && (a + b)[1..] == a[1..] + b;
      ApplicableConcat(opts, a[1..], b);
    }
  }

  lemma {:induction false} NamespaceConcat(p: seq<Argument>, q: seq<Argument>, given: map<string, Value>)
    ensures Namespace(p + q, given) == Namespace(p, given) + Namespace(q, given)
    decreases |p|
  {
    if p == [] {
      assert p + q == q;
    } else {
      assert (p + q)[0] == p[0] && (p + q)[1..] == p[1..] + q;
      NamespaceConcat(p[1..], q, given);
      var d := p[0].dest;
      ConcatAssoc([(d, if d in given then given[d] else Default(p[0]))], Namespace(p[1..], given), Namespace(q, given));
    }
  }

  lemma ConcatAssoc<T>(a: seq<T>, b: seq<T>, c: seq<T>)
    ensures a + (b + c) == (a + b) + c
  {
  }

  /** The names of registry entries, in order. */
  function NamesOf(cs: seq<OptionSpec>): (ns: seq<string>)
    ensures |ns| == |cs| && forall i :: 0 <= i < |cs| ==> ns[i] == cs[i].name
  {
    if cs == [] then [] else [cs[0].name] + NamesOf(cs[1..])
  }

  lemma {:induction false} OptionsApplicable(opts: set<string>, cs: seq<OptionSpec>, given: map<string, Value>)
    requires forall i :: 0 <= i < |cs| ==> cs[i].name in opts && Plain(cs[i])
    ensures ConfigProperties.Applicable(opts, Namespace(OptionArguments(cs), given)) == Given(NamesOf(cs), given)
    decreases |cs|
  {
    if cs != [] {
      OptionArgumentDest(cs[0]);
      assert OptionArguments(cs)[1..] == OptionArguments(cs[1..]);
      assert NamesOf(cs)[1..] == NamesOf(cs[1..]);
      OptionsApplicable(opts, cs[1..], given);
    }
  }

  lemma ExtrasInapplicable(opts: set<string>, e: seq<Argument>, given: map<string, Value>)
    requires forall k :: 0 <= k < |e| ==> e[k].dest !in opts
    ensures ConfigProperties.Applicable(opts, Namespace(e, given)) == []
  {
    var ns := Namespace(e, given);
    assert forall i :: 0 <= i < |ns| ==> ns[i].0 !in opts;
  }

  /** For any declarable registry, `load_args` of the parsed namespace loads the given options. */
  lemma DeclaredArgs(st: State, cs: seq<OptionSpec>, e: seq<Argument>, given: map<string, Value>, h: Home, fs: FileSystem)
    requires WellFormed(st) && Declarable(cs)
    requires forall i :: 0 <= i < |cs| ==> cs[i].name in st.values
    requires forall k :: 0 <= k < |e| ==> e[k].dest !in st.values
    ensures ApplyArgs(st, Namespace(OptionArguments(cs) + e, given), h, fs)
      == ApplyLoad(st, Given(NamesOf(cs), given), false, h, fs)
  {
    var opts := st.values.Keys;
    var a := Namespace(OptionArguments(cs), given);
    var b := Namespace(e, given);
    ConfigProperties.ArgsAsLoad(st, Namespace(OptionArguments(cs) + e, given), h, fs);
    NamespaceConcat(OptionArguments(cs), e, given);
    assert Namespace(OptionArguments(cs) + e, given) == a + b;
    ApplicableConcat(opts, a, b);
    ExtrasInapplicable(opts, e, given);
    assert ConfigProperties.Applicable(opts, b) == [];
    assert forall i :: 0 <= i < |cs| ==> Plain(cs[i]);
    OptionsApplicable(opts, cs, given);
    assert ConfigProperties.Applicable(opts, a) == Given(NamesOf(cs), given);
    var g := Given(NamesOf(cs), given);
    assert ConfigProperties.Applicable(opts, a + b) == g + [];
    assert g + [] == g;
    assert ConfigProperties.Applicable(opts, Namespace(OptionArguments(cs) + e, given)) == g;
  }

  /** The names `parse_args` adds are not option names. */
  lemma ExtrasNotOptions()
    ensures "testcase" !in NameSet && "write" !in NameSet && "verbose" !in NameSet
  {
    NamesNotExtra();
  }

  lemma RegistryNames()
    ensures NamesOf(Configs()) == Names
    ensures forall i :: 0 <= i < |Configs()| ==> Configs()[i].name in NameSet
  {
    var cs := Configs();
    assert forall i :: 0 <= i < |cs| ==> cs[i].name == Names[i];
  }

  /**
   * `load_args` applied to what `parse_args` returns is `load` (not as
   * defaults) of exactly the options the command line gives, in registry
   * order: an option left out keeps its value, and `testcase`, `write` and
   * `verbose` are never stored.
   */
  lemma ArgsGiven(st: State, cmd: string, given: map<string, Value>, h: Home, fs: FileSystem)
    requires WellFormed(st) && Complete(st)
    ensures ApplyArgs(st, Namespace(Parser(cmd), given), h, fs) == ApplyLoad(st, Given(Names, given), false, h, fs)
  {
    RegistryDeclarable();
    RegistryNames();
    ExtrasDests(TakesTestcase(cmd));
    ExtrasNotOptions();
    DeclaredArgs(st, Configs(), Extras(cmd), given, h, fs);
  }

  lemma GivenNothing(names: seq<string>)
    ensures Given(names, map[]) == []
  {
    var d := Given(names, map[]);
  }

  /** A command line that gives no option leaves the store exactly as it was. */
  lemma NothingGiven(st: State, cmd: string, h: Home, fs: FileSystem)
    requires WellFormed(st) && Complete(st)
    ensures ApplyArgs(st, Namespace(Parser(cmd), map[]), h, fs) == Loaded(st, None)
  {
    ArgsGiven(st, cmd, map[], h, fs);
    GivenNothing(Names);
  }

  // ---------------------------------------------------------------------------
  // main

  /**
   * `main` before the command: load `bugconf` from the working directory
   * (not as defaults; a missing file, or a `FileNotFoundError` raised while
   * loading it, is passed over), then the command line.
   */
  function Configure(st: State, args: Doc, h: Home, fs: FileSystem): (r: Loaded)
    requires WellFormed(st)
    ensures WellFormed(r.state) && r.state.values.Keys == st.values.Keys
  {
    var fromFile :=
      if "bugconf" in fs.dirs then Loaded(st, Some(IsADirectory("bugconf")))
      else if "bugconf" !in fs.files then Loaded(st, None)
      else
        var l := ApplyLoad(st, fs.files["bugconf"], false, h, fs);
        if l.err.Some? && l.err.value.FileNotFound? then Loaded(l.state, None) else l;
    if fromFile.err.Some? then fromFile else ApplyArgs(fromFile.state, args, h, fs)
  }

  /** Loading the given options of distinct `names` without error leaves each holding its given value. */
  lemma GivenApplied(st: State, names: seq<string>, given: map<string, Value>, h: Home, fs: FileSystem)
    requires WellFormed(st) && forall i, j :: 0 <= i < j < |names| ==> names[i] != names[j]
    requires forall k :: k in names ==> k in st.values
    requires ApplyLoad(st, Given(names, given), false, h, fs).err.None?
    ensures var r := ApplyLoad(st, Given(names, given), false, h, fs).state;
      forall k :: k in names && k in given && given[k] != Null ==>
        r.values[k] == Stored(k, given[k], h) && k !in r.defaults
  {
    GivenDistinct(names, given);
    var d := Given(names, given);
    var r := ApplyLoad(st, d, false, h, fs).state;
    ConfigProperties.LoadApplies(st, d, false, h, fs);
    forall k | k in names && k in given && given[k] != Null
      ensures r.values[k] == Stored(k, given[k], h) && k !in r.defaults
    {
      assert (k, given[k]) in d;
      var i :| 0 <= i < |d| && d[i] == (k, given[k]);
    }
  }

  /** `main` gets past loading `bugconf` exactly from this state. */
  function AfterFile(st: State, h: Home, fs: FileSystem): State
    requires WellFormed(st)
  {
    if "bugconf" !in fs.files then st else ApplyLoad(st, fs.files["bugconf"], false, h, fs).state
  }

  /**
   * The command line overrides the `bugconf` file: when `main` gets past
   * loading, every option the command line gives holds that value (as its
   * setter stores it) and is not default-origin, so `--write` will dump it.
   */
  lemma CommandLineWins(st: State, cmd: string, given: map<string, Value>, h: Home, fs: FileSystem)
    requires WellFormed(st) && Complete(st)
    ensures var r := Configure(st, Namespace(Parser(cmd), given), h, fs);
      r.err.None? ==>
        forall k :: k in Names && k in given && given[k] != Null ==>
          r.state.values[k] == Stored(k, given[k], h) && k !in r.state.defaults
  {
    var args := Namespace(Parser(cmd), given);
    var r := Configure(st, args, h, fs);
    if r.err.None? {
      ConfigureAfterFile(st, args, h, fs);
      ArgsWin(AfterFile(st, h, fs), cmd, given, h, fs);
    }
  }

  /** When `main` gets past loading, `load_args` ran on the state the `bugconf` file left. */
  lemma ConfigureAfterFile(st: State, args: Doc, h: Home, fs: FileSystem)
    requires WellFormed(st) && Complete(st)
    requires Configure(st, args, h, fs).err.None?
    ensures Complete(AfterFile(st, h, fs))
    ensures Configure(st, args, h, fs) == ApplyArgs(AfterFile(st, h, fs), args, h, fs)
  {
  }

  /** The options the command line gives hold their values once `load_args` succeeds. */
  lemma ArgsWin(st: State, cmd: string, given: map<string, Value>, h: Home, fs: FileSystem)
    requires WellFormed(st) && Complete(st)
    requires ApplyArgs(st, Namespace(Parser(cmd), given), h, fs).err.None?
    ensures var r := ApplyArgs(st, Namespace(Parser(cmd), given), h, fs).state;
      forall k :: k in Names && k in given && given[k] != Null ==>
        r.values[k] == Stored(k, given[k], h) && k !in r.defaults
  {
    ArgsGiven(st, cmd, given, h, fs);
    RegistryDistinct();
    NamesInSet();
    GivenApplied(st, Names, given, h, fs);
  }

  lemma NamesInSet()
    ensures forall k :: k in Names ==> k in NameSet
  {
    forall k | k in Names ensures k in NameSet {
      var i :| 0 <= i < |Names| && Names[i] == k;
    }
  }

  /** The command `main` runs after loading. */
  datatype Command = Repro | Reduce | ListBuilds | NoCommand

  /**
   * How far `main` gets: whether it warns about a missing `bugconf`, the
   * command its program name selects, whether that command is started,
   * whether it warns that there is nothing to do, and whether it reaches the
   * dump.
   */
  datatype Plan = Plan(warnNoBugconf: bool, command: Command, runs: bool, warnNothingToDo: bool, dump: bool)

  /** The command a program name selects. */
  function Selected(cmd: string): (c: Command)
    ensures c == Repro <==> cmd == "bcrepro"
    ensures c == Reduce <==> cmd == "bcreduce"
    ensures c == ListBuilds <==> cmd == "bclistbuilds"
  {
    if cmd == "bcrepro" then Repro
    else if cmd == "bcreduce" then Reduce
    else if cmd == "bclistbuilds" then ListBuilds
    else NoCommand
  }

  /**
   * Whether the `try` around loading `bugconf` ends without a
   * `FileNotFoundError`; `main` warns about a missing `bugconf` when it
   * does not.
   */
  function BugconfOpened(st: State, h: Home, fs: FileSystem): bool
    requires WellFormed(st)
  {
    || "bugconf" in fs.dirs
    || ("bugconf" in fs.files &&
        var r := ApplyLoad(st, fs.files["bugconf"], false, h, fs);
        !(r.err.Some? && r.err.value.FileNotFound?))
  }

  /**
   * Whether the selected command raises: `list_builds()` raises as
   * `ListBuilds` says; `runRaises` stands for `repro` and `reduce`, whose
   * browser, Lithium run and log files are not part of this model.
   */
  function CommandRaises(command: Command, st: State, h: Home, fs: FileSystem, runRaises: bool): bool
    requires WellFormed(st)
  {
    match command
    case ListBuilds => Config.ListBuilds(st.values, h, fs).Err?
    case NoCommand => false
    case _ => runRaises
  }

  /**
   * `main` once the command line is parsed. `init` is what `cls()` ended
   * in; loading `bugconf` and then the command line is `Configure`. An
   * exception ends `main` where it is raised, so nothing after it happens,
   * the dump included.
   */
  function MainPlan(cmd: string, write: bool, init: Loaded, args: Doc, h: Home, fs: FileSystem, runRaises: bool): Plan
    requires WellFormed(init.state)
  {
    var command := Selected(cmd);
    if init.err.Some? then Plan(false, command, false, false, false)
    else
      var conf := Configure(init.state, args, h, fs);
      var warn := !BugconfOpened(init.state, h, fs) && cmd != "bclistbuilds";
      if conf.err.Some? then Plan(warn, command, false, false, false)
      else
        var raises := CommandRaises(command, conf.state, h, fs, runRaises);
        Plan(warn, command, command != NoCommand, command == NoCommand && !write, write && !raises)
  }

  /**
   * The parser has a `testcase` argument exactly for the program names whose
   * command reads `args.testcase`; the command is started exactly when
   * `cls()` and both loads succeed; `main` reaches the dump exactly when
   * `--write` is given and nothing before it raised; it says there is
   * nothing to do exactly when it gets past loading and would otherwise do
   * nothing; and it warns about a missing `bugconf`, except for
   * `bclistbuilds`, exactly when `__init__` succeeded and there is no
   * `bugconf` file or loading it raised `FileNotFoundError`.
   */
  lemma PlanConsistent(cmd: string, write: bool, init: Loaded, args: Doc, h: Home, fs: FileSystem, runRaises: bool)
    requires WellFormed(init.state)
    ensures var plan := MainPlan(cmd, write, init, args, h, fs, runRaises);
      (plan.command == Repro || plan.command == Reduce) <==>
        exists i :: 0 <= i < |Parser(cmd)| && Parser(cmd)[i].dest == "testcase"
    ensures var plan := MainPlan(cmd, write, init, args, h, fs, runRaises);
      var conf := Configure(init.state, args, h, fs);
      var reached := init.err.None? && conf.err.None?;
      && (plan.runs <==> reached && plan.command != NoCommand)
      && (plan.dump <==> write && reached && !CommandRaises(plan.command, conf.state, h, fs, runRaises))
      && (plan.warnNothingToDo <==> reached && !plan.runs && !write)
    ensures var plan := MainPlan(cmd, write, init, args, h, fs, runRaises);
      plan.warnNoBugconf <==>
        && init.err.None? && cmd != "bclistbuilds" && "bugconf" !in fs.dirs
        && ("bugconf" in fs.files ==>
              var r := ApplyLoad(init.state, fs.files["bugconf"], false, h, fs);
              r.err.Some? && r.err.value.FileNotFound?)
  {
    TestcaseDeclared(cmd);
  }

  /** A `bugconf` directory raises `IsADirectoryError` out of `main`: no warning, no command, no dump. */
  lemma DirectoryStopsMain(cmd: string, write: bool, st: State, args: Doc, h: Home, fs: FileSystem, runRaises: bool)
    requires WellFormed(st) && "bugconf" in fs.dirs
    ensures Configure(st, args, h, fs).err == Some(IsADirectory("bugconf"))
    ensures MainPlan(cmd, write, Loaded(st, None), args, h, fs, runRaises) == Plan(false, Selected(cmd), false, false, false)
  {
  }

  /**
   * `bclistbuilds -w` with no build path set gets a `TypeError` from
   * `list_builds()` and never reaches the dump.
   */
  lemma ListingWithoutBuildPath(write: bool, st: State, args: Doc, h: Home, fs: FileSystem, runRaises: bool)
    requires WellFormed(st)
    requires var conf := Configure(st, args, h, fs); conf.err.None? && conf.state.values["buildpath"] == Null
    ensures Config.ListBuilds(Configure(st, args, h, fs).state.values, h, fs) == Err(TypeError)
    ensures var plan := MainPlan("bclistbuilds", write, Loaded(st, None), args, h, fs, runRaises);
      plan.runs && !plan.dump && !plan.warnNoBugconf
  {
  }

  /**
   * The "No bugconf file found" warning is also given when `bugconf` exists
   * but loading it raises `FileNotFoundError` (a `build` whose build path is
   * missing), and `main` then goes on with what the file set before the error.
   */
  lemma MisleadingWarning(st: State, h: Home, fs: FileSystem, args: Doc)
    requires WellFormed(st) && "bugconf" !in fs.dirs && "bugconf" in fs.files
    requires var r := ApplyLoad(st, fs.files["bugconf"], false, h, fs); r.err.Some? && r.err.value.FileNotFound?
    ensures !BugconfOpened(st, h, fs)
    ensures forall cmd, write, runRaises :: cmd != "bclistbuilds" ==>
      MainPlan(cmd, write, Loaded(st, None), args, h, fs, runRaises).warnNoBugconf
    ensures Configure(st, args, h, fs) == ApplyArgs(ApplyLoad(st, fs.files["bugconf"], false, h, fs).state, args, h, fs)
  {
  }

  /** The parser has an argument stored under `testcase` exactly for `bcrepro` and `bcreduce`. */
  lemma TestcaseDeclared(cmd: string)
    ensures (exists i :: 0 <= i < |Parser(cmd)| && Parser(cmd)[i].dest == "testcase") <==> TakesTestcase(cmd)
  {
    var t := TakesTestcase(cmd);
    var p, n := Parser(cmd), ExtraNames(t);
    ParserOptionDests(cmd);
    ParserExtraDests(cmd);
    ExtraNamesDistinct(t);
    if t {
      assert p[|Names|].dest == n[0];
    } else {
      NamesNotExtra();
      forall i | 0 <= i < |p| ensures p[i].dest != "testcase" {
        if i >= |Names| {
          assert n[i - |Names|] in n;
        }
      }
    }
  }
}
