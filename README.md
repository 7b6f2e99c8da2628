# bugconf in Dafny

`bugconf.py` automates bug triage for a browser fuzzing setup. A `BugConf`
object holds one attribute per configurable option (the `_CONFIGS`
registry: name, short flag, help text, type). Values come from three places,
in this order:

- a user-level defaults file (`~/.bugconfrc` or `~/.config/bugconf/config`);
- a `bugconf` JSON file in the working directory;
- the command line.

Four options have property setters or getters:

- `build` must be one of the builds `list_builds` finds under `buildpath`;
- `reduce_file` is expanded with `os.path.expanduser` when assigned;
- `buildpath`, `extension_path`, `logfn`, `prefs` and `reducer` are expanded
  when read.

`__init__` loads the first user-level defaults file that opens. A
`FileNotFoundError` raised while loading one (a `build` whose build path is
missing) is swallowed like a missing file: what that file set before the
error stays, and the search goes on to the next file, so both files can end
up loaded (`ConfigProperties.RcLoadsBothFiles`).

`dump` writes the options that are set and did not come from the defaults
file. `main` picks the command by program name: `bcrepro` launches the
browser, `bcreduce` runs `lithium`, `bclistbuilds` lists builds. It dumps
the configuration when `--write` is given. `format_mdsw_backtrace` turns
`minidump_stackwalk -m` output into a backtrace of one thread.

The modules:

| module | file | what it holds |
|---|---|---|
| `Wrappers` | wrappers.dfy | `Option`, `Result`, and `Error`, one constructor per exception the code can raise |
| `Text` | text.dfy | `sorted`, `str.split`/`join`, `strip`, `replace`, `"%d"` and `int()` |
| `Registry` | registry.dfy | `_CONFIGS` (names, short flags, types), the JSON `Value`, truthiness |
| `RegistryHelp` | registry_help.dfy | the help texts, which only argparse prints |
| `Paths` | paths.dfy | `os.path.expanduser`, `os.path.join`, `os.listdir` over a given home and filesystem |
| `Config` | config.dfy | the store as a value `State(values, defaults)`: getters, setters, `load`, `load_args`, `dump`, `list_builds`, the defaults search |
| `ConfigProperties` | config_props.dfy | what those operations promise and how they compose (round trip, layering) |
| `Store` | store.dfy | the `BugConf` class itself, with methods that update its attributes in place and are proved to agree with `Config` |
| `Reduce` | reduce.dfy | the `lithium` argv `reduce` builds |
| `Repro` | repro.dfy | the launcher arguments of `repro` and the product abbreviation |
| `Backtrace` | backtrace.dfy | `format_mdsw_backtrace` |
| `Cli` | cli.dfy | `parse_args` as the list of declared arguments, the namespace it returns, and `main` |

A JSON file appears as a `Doc`: its key/value pairs in the order
`json.load` yields them. The filesystem is a `FileSystem` value: directories
with their entries, and files already parsed. The home directory is a `Home`
value. Each of these is passed to the operations that use it.

## Model

| member | source | states |
|---|---|---|
| Registry.RegistrySorted | bugconf.py:56-80 | the registry's names are in strictly ascending order, so iterating `_CONFIGS` visits options in the order `json.dump(sort_keys=True)` writes them |
| Registry.RegistryDistinct | bugconf.py:56-80 | no option name appears twice |
| Store.BugConf.constructor | bugconf.py:85-110 | the new object holds every registered option, all `None`, and nothing is default-origin |
| Config.Unset | bugconf.py:85-110 | the initial state is well formed, holds exactly the registered options, all `None`, with an empty default set |
| Store.BugConf.LoadDefaults | bugconf.py:112-121 | the object ends in the state, and returns the error, that `LoadFirstRc` gives for the two defaults paths; what that search promises is stated by the `Rc` lemmas below |
| ConfigProperties.RcNoneExist | bugconf.py:112-121 | when no defaults path exists, nothing is loaded and nothing is raised |
| ConfigProperties.RcSkipsMissing | bugconf.py:115-121 | paths that do not exist are passed over without changing the store |
| ConfigProperties.RcFirstFileWins | bugconf.py:115-121 | when the first existing path is a file whose loading raises anything but `FileNotFoundError` (or nothing), the search is exactly that load as defaults, and no later path is looked at |
| ConfigProperties.RcDirectoryStops | bugconf.py:115-121 | a directory at the first existing path stops the search with `IsADirectoryError` |
| ConfigProperties.RcFallsThrough | bugconf.py:115-121 | a `FileNotFoundError` raised while loading the first existing file is swallowed, what the file set before it stays set as defaults, and the search goes on with the next path |
| ConfigProperties.MissingBuildPathLoad | bugconf.py:126-134 | a document setting a missing absolute `buildpath` and then `build` stores `buildpath` as a default and then raises `FileNotFoundError` from the `build` setter's listing |
| ConfigProperties.RcLoadsBothFiles | bugconf.py:112-121 | so both defaults files can be loaded: a `~/.bugconfrc` that sets a missing `buildpath` and then `build` leaves that `buildpath` as a default, and `~/.config/bugconf/config` is loaded on top |
| Paths.ExpandIdempotent | bugconf.py:134 | when no home directory begins with `~`, expanding an expanded path changes nothing |
| Config.Assign | bugconf.py:126-172 | an accepted assignment changes only that option, to the value its setter stores; assignments other than `build` and `reduce_file` always succeed; `reduce_file` succeeds exactly on a string |
| Store.BugConf.ListBuilds | bugconf.py:211-214 | the object is unchanged; the result succeeds exactly when `buildpath` is a string naming a directory, and is then that directory's entries, sorted ascending and forming a permutation |
| ConfigProperties.ListBuildsSorted | bugconf.py:211-214 | `list_builds` succeeds exactly when the expanded build path is a directory, and yields its entries sorted ascending and as a permutation; a non-string build path raises `TypeError` |
| Text.SortSorted | bugconf.py:213 | `sorted` orders its input ascending |
| Text.SortPermutes | bugconf.py:213 | `sorted` keeps exactly the input's elements |
| Store.BugConf.SetBuild | bugconf.py:126-130 | the build is stored exactly when it is a listed build, and then only `build` changes; otherwise nothing changes, and the error is the listing's own error or "Build not found" |
| ConfigProperties.SetBuild | bugconf.py:126-130 | assigning `build` succeeds exactly when the value is a listed build; a failing listing propagates its error; an unlisted value raises "Build not found"; an accepted value reads back unchanged |
| Store.BugConf.SetAttr | bugconf.py:126-172 | `setattr` leaves the attributes `Assign` describes, or raises its error and changes nothing; the default-origin set is untouched |
| Store.BugConf.Load | bugconf.py:174-189 | the object ends in the state, and raises the error, that `ApplyLoad` gives for the document |
| ConfigProperties.LoadConcat | bugconf.py:181-189 | loading `a + b` is loading `a`, then `b` unless `a` raised |
| ConfigProperties.LoadStopsAtUnknown | bugconf.py:182-183 | a key that is not an option makes `load` raise "Unsupported config" for it, after applying the keys before it |
| ConfigProperties.LoadErrors | bugconf.py:181-185 | a `load` that raises nothing met only options; an "Unsupported config" names a document key that is not an option |
| ConfigProperties.LoadFrame | bugconf.py:181-189 | options not in the document keep their value and origin, even when `load` raises; loading defaults only adds to the default set, any other load only removes from it |
| ConfigProperties.LoadApplies | bugconf.py:181-189 | after a `load` that raises nothing, each key holds the value its setter stores, and is default-origin exactly when loading defaults |
| Store.BugConf.LoadArgs | bugconf.py:201-209 | the object ends in the state, and raises the error, that `ApplyArgs` gives for the namespace |
| ConfigProperties.ArgsAsLoad | bugconf.py:201-209 | `load_args` is a non-defaults `load` of exactly the namespace entries that are options and not `None` |
| ConfigProperties.CliExtrasUnregistered | bugconf.py:206 | `testcase`, `write` and `verbose` are not options, so `load_args` skips them |
| Store.BugConf.Dump | bugconf.py:191-199 | the object is unchanged; the document is produced exactly when every path option holds a string; its keys are strictly ascending and are exactly the options that are set and not default-origin, each paired with its getter's value |
| Store.BugConf.Collect | bugconf.py:193-198 | the loop of `dump` over a list of names collects what `DumpFrom` describes |
| ConfigProperties.DumpFromSpec | bugconf.py:193-198 | the loop succeeds exactly when every path option among the names holds a string; each entry is a set, non-default option with its getter's value, and every such option among the names is written |
| ConfigProperties.DumpFromSorted | bugconf.py:194-199 | names visited in ascending order give a document with ascending keys |
| ConfigProperties.DumpExact | bugconf.py:191-199 | `dump` succeeds exactly when every path option is set, and then writes exactly the explicit options with their getter values, keys ascending |
| ConfigProperties.SortedDistinct | bugconf.py:199 | a document with ascending keys has no repeated key |
| ConfigProperties.ReadBack | bugconf.py:132-172 | a dumped value stored back through its setter reads back as the original getter returned it |
| ConfigProperties.UnsetSettled | bugconf.py:99 | the initial `reduce_file` (`None`) is settled |
| ConfigProperties.AssignSettles | bugconf.py:167-172 | under a sane home table, every assignment leaves `reduce_file` `None` or an already expanded path, since its setter expands |
| ConfigProperties.LoadSettles | bugconf.py:174-189 | `load` keeps `reduce_file` settled, whether or not it raises |
| ConfigProperties.ArgsSettle | bugconf.py:201-209 | `load_args` keeps `reduce_file` settled, whether or not it raises |
| ConfigProperties.RoundTrip | bugconf.py:174-199 | loading a dump into a store whose build path lists the dumped build raises nothing, restores every explicit option (as its getter reads), marks none of them default-origin and leaves every other option as it was |
| ConfigProperties.FreshRoundTrip | bugconf.py:174-199 | into a store with nothing set, a dump without `build` reloads to exactly the dumped values, with nothing default-origin |
| ConfigProperties.FreshReloadRejectsBuild | bugconf.py:126-134 | a dump containing `build` does not reload into a store with nothing set: `build` sorts before `buildpath`, so its setter lists builds while `buildpath` is `None`, and that raises `TypeError` |
| ConfigProperties.Layered | bugconf.py:112-121 | loading a defaults document and then a project document: project keys win and are not default-origin; keys only in the defaults keep its values and stay default-origin |
| Reduce.ReduceTyped | bugconf.py:289-322 | `reduce` builds an argv exactly when every option it reads has a usable type, and otherwise raises `TypeError` |
| Reduce.ReduceFrame | bugconf.py:292-304 | the argv starts with `lithium` and ends with the testcase; the reducer, `-p`, the prefs file and the binary follow the strategy tokens |
| Reduce.Isolation | bugconf.py:293-319 | changing one option changes only that option's tokens, in place, and nothing else in the argv |
| Reduce.ToggleSwitch | bugconf.py:293-313 | turning a boolean option on inserts exactly its flag and nothing else, and does not affect whether an argv is produced |
| Reduce.VerboseFlag | bugconf.py:320-322 | `-v` sits right before the testcase exactly when `verbose` is set |
| Reduce.CountReadsBack | bugconf.py:311-319 | a count written with `"%d"` reads back with `int()` as the configured number |
| Reduce.CompleteReady | bugconf.py:289-322 | a store holding every registered option has every option `reduce` reads |
| Repro.LaunchArguments | bugconf.py:222-234 | the launcher is reached exactly when prefs, the extension path (if the extension is on), the build path and the build are strings, and otherwise `TypeError` is raised; then it gets the expanded prefs and the testcase location, plus safe-mode, extension and memory-limit arguments exactly when those options are truthy; a memory limit in megabytes is passed in bytes; the binary is `buildpath/build/firefox` |
| Repro.LaunchMemory | bugconf.py:230-231 | a truthy `memory` is passed as `memory * 1024 * 1024`: bytes for a number of megabytes, 1048576 for `True`, and the string repeated 1048576 times for a string |
| Repro.RepeatRepeat | bugconf.py:231 | repeating a string `m` times and the result `n` times is repeating it `m * n` times |
| Repro.Initials | bugconf.py:285 | the first letter of each part, in order; `IndexError` exactly when a part is empty |
| Repro.AbbreviationParts | bugconf.py:285 | the abbreviation exists exactly when no `-`-separated part is empty, and splitting it at `-` gives the first letter of each part, in order; otherwise `IndexError` |
| Text.JoinSplit | bugconf.py:285 | joining the pieces of a split with the same separator gives back the string |
| Text.SplitJoin | bugconf.py:285 | splitting a join of separator-free pieces gives the pieces back |
| Backtrace.FormatMdswBacktrace | bugconf.py:22-50 | the loop yields the frames, and stops with the exception, that `Backtrace` describes |
| Backtrace.BacktraceSelects | bugconf.py:31-50 | the generator yields exactly the formatting of the selected lines: with a thread number, that thread's records; without one, the first line that fixes a thread and then that thread's records |
| Backtrace.FollowsThread | bugconf.py:40-41 | with a thread number, the output is the formatting of that thread's records |
| Backtrace.LocksOnFirst | bugconf.py:32-37 | a first line that fixes the thread is parsed, and that thread is followed from then on |
| Backtrace.SkipsFirst | bugconf.py:32-39 | a first line that cannot fix the thread is passed over |
| Backtrace.Filter | bugconf.py:41 | the kept lines are exactly the lines that start with the prefix |
| Backtrace.FilterCounts | bugconf.py:41 | every line with the prefix is kept as often as it occurs, and no other line is kept |
| Backtrace.FilterConcat | bugconf.py:41 | the kept lines stay in input order: filtering two parts in turn is filtering the whole |
| Backtrace.FirstLockable | bugconf.py:32-39 | the index of the first line that can fix the thread, with no earlier such line |
| Backtrace.RecordFixesThread | bugconf.py:36-41 | a line that begins with thread n's record prefix fixes thread n |
| Backtrace.RecordFields | bugconf.py:44 | stripping and splitting a record line gives back its seven fields |
| Backtrace.FormatSourceFrame | bugconf.py:45-48 | a record with function, source and line is formatted `#frame: function, at file:line`, the file being the third `:`-part of the source |
| Backtrace.FormatBareFrame | bugconf.py:49-50 | a record missing its function, source or line is formatted `#frame: module+offset` |
| Text.ParseDecimal | bugconf.py:36-41 | `int("%d" % n) == n` |
| Text.ReplaceInverse | bugconf.py:347 | replacing `_` with `-` and back restores a name that had no `-` |
| Cli.Namespace | bugconf.py:360 | the namespace has one entry per declared argument, named after its destination, in declaration order |
| Cli.RegistryDeclarable | bugconf.py:56-80 | every option name is plain (non-empty, no leading `_`, no `-`), not `testcase`/`write`/`verbose`; no name and no short flag is repeated |
| Cli.FlagsDest | bugconf.py:347-349 | argparse stores an option declared as `--name` and `-s` under the option's own name |
| Cli.WriteDeclared | bugconf.py:358 | `--write`/`-w` is a flag stored under `write`, defaulting to false |
| Cli.VerboseDeclared | bugconf.py:359 | `--verbose`/`-v` is a flag stored under `verbose`, defaulting to false |
| Cli.ParserOptionDests | bugconf.py:343-355 | the first 24 arguments are the options, each stored under its registry name, in registry order |
| Cli.ParserExtraDests | bugconf.py:356-359 | after the options come `testcase` (for `bcrepro` and `bcreduce`), `write` and `verbose` |
| Cli.ParserDestsDistinct | bugconf.py:339-359 | no two arguments share a destination |
| Cli.ParserExtrasUnregistered | bugconf.py:356-359 | the destinations after the options are not options |
| Cli.ParserConsistent | bugconf.py:339-359 | no option string is declared twice, so building the parser raises no conflict for any program name |
| Cli.TestcaseDeclared | bugconf.py:341-357 | the parser has a `testcase` argument exactly for `bcrepro` and `bcreduce` |
| Cli.Given | bugconf.py:204-206 | exactly the names the command line gives a non-`None` value, with that value |
| Cli.ArgsGiven | bugconf.py:201-209 | `load_args` of the parsed namespace is a non-defaults `load` of exactly the options the command line gives, in registry order |
| Cli.NothingGiven | bugconf.py:201-209 | a command line giving no option leaves the store exactly as it was |
| Cli.Configure | bugconf.py:372-378 | loading `bugconf` and then the arguments keeps the store well formed over the same options |
| Cli.CommandLineWins | bugconf.py:372-378 | when `main` gets past loading, every option the command line gives holds that value and is not default-origin, so `--write` will dump it |
| Cli.Selected | bugconf.py:379-384 | the program names `bcrepro`, `bcreduce` and `bclistbuilds`, and only they, select `repro`, `reduce` and `list_builds` |
| Cli.PlanConsistent | bugconf.py:371-390 | a command reads `args.testcase` exactly when the parser declares it; the command is started exactly when `cls()` and both loads succeed; the dump is reached exactly when `--write` is given and neither `cls()`, nor loading, nor the command raised; "nothing to do" is warned exactly when loading succeeded, no command runs and `--write` is not given; the missing-`bugconf` warning is given, except for `bclistbuilds`, exactly when `cls()` succeeded and there is no `bugconf` or loading it raised `FileNotFoundError` |
| Cli.DirectoryStopsMain | bugconf.py:372-378 | a `bugconf` directory makes loading raise `IsADirectoryError`, so `main` gives no warning, runs no command and does not dump |
| Cli.ListingWithoutBuildPath | bugconf.py:383-390 | `bclistbuilds` with no build path set raises `TypeError` from `list_builds()` and never reaches the dump, even with `--write` |
| Cli.MisleadingWarning | bugconf.py:372-378 | when `bugconf` exists but loading it raises `FileNotFoundError`, `main` still warns that no `bugconf` file was found (except for `bclistbuilds`) and goes on to `load_args` with what the file set before the error |

## Left out

- The help texts of `_CONFIGS` are kept in `RegistryHelp` but take part in nothing: argparse only prints them.
- Logging (`log.debug`, `log.info`, `log.warning`, the level set by `--verbose`) is left out, since it has no effect on state. `main`'s warnings appear only as flags of `Plan`.
- JSON text is not modelled: files are already-parsed documents. Parse errors, floats, lists, nested objects and a top-level non-object are left out, as is the output formatting of `json.dump` (indent, separators). `dump` is modelled as the ordered list of pairs it writes.
- Command-line parsing is not modelled. argparse's matching of argv, type conversion, usage errors and `--help` are left out. The parsed values arrive as a map from destination to value, and `Cli.Namespace` builds the namespace from it.
- `__init__` is modelled as the constructor plus `LoadDefaults`. Dafny constructors cannot return the exception that escapes `__init__`, so the defaults search is a separate method.
- Store.BugConf.LoadDefaults: models `open` failing only for a missing path or a directory; permission errors are not modelled.
- `reduce` and `repro` are modelled as functions of the option values (`Reduce.ReduceArgv`, `Repro.ReproLaunch`), not as methods of the class. They change no attribute.
- `subprocess.check_call` and the dead `lithium.Lithium` code after `return` in `reduce` are left out: the model stops at the argv. The subprocess's exit status is not modelled.
- The `FFPuppet(use_valgrind=..., use_xvfb=..., use_gdb=...)` constructor and `add_abort_token` call that start `repro` are left out: the `valgrind`, `xvfb` and `gdb` options reach the browser harness only through that constructor, which is a foreign library.
- `repro` after the launch is left out: `ffpuppet` launching, waiting, closing and saving logs; the removal of `log_*.txt` files; the log-file selection; printing of stderr lines; reading `firefox.fuzzmanagerconf` with `configparser`. These are I/O with processes and files outside this model. Only the product abbreviation (`Repro.Abbreviate`) is kept; its input is the product string as read.
- `os.path.expanduser` is modelled for POSIX with `$HOME` set. A `~user` whose user is unknown is left as is; an unset `HOME` and the password-database lookup are given as data (`Home`).
- Strings are sequences of characters: encodings and non-ASCII whitespace in `strip` and `int()` are left out. `Text.ParseInt` accepts ASCII digits with `_` between digit groups.
- `download.py` is not part of this model.
- Cli.MainPlan: whether `repro` or `reduce` raises is an input (`runRaises`), because the browser, Lithium and their log files are outside this model. `list_builds` raising is derived from the model. The outcome of `cls()` is an input (`init`), which `LoadFirstRc` describes. The dump itself raising after `open("bugconf", "w")` has emptied the file is not part of the plan.
- Cli.ParserConsistent: leaves out the `-h`/`--help` option argparse adds by itself; no option or short flag of the registry is `help` or `h`, so it adds no conflict, but that is not proved here.
- ConfigProperties.RoundTrip: requires that the build path of the target store already lists the dumped build. `build` sorts before `buildpath`, so the setter of `build` runs before the dumped `buildpath` is loaded (`FreshReloadRejectsBuild` shows it fails on an empty store).
