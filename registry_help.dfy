/**
 * The help text of each registry option, in registry order. `parse_args`
 * passes it to argparse, which only prints it in the usage message; no
 * behaviour of the configurator depends on it.
 */
module RegistryHelp {
  const Helps: seq<string> := [
    "Any crash is interesting during reduction",
    "Folder name of downloaded build (relative to buildpath)",
    "Path of downloaded builds",
    "Use char reduction",
    "Use DOMFuzz extension",
    "Path to DOMFuzz extension",
    "Use GDB",
    "Use jsstr reduction",
    "Filename to save log to during repro",
    "Set memory limit",
    "Require the testcase to crash n times before accepting the result.",
    "Don't use a background tab to detect timeout",
    "Path to prefs.js to use",
    "Testcase to reduce",
    "Path to interesting.py",
    "Run intermittent testcase reduction multiple times",
    "Launch in Safe Mode (requires interaction)",
    "Specify signature to reduce",
    "Skip n initial iterations",
    "Use lithium strategy",
    "Use symbol reduction",
    "Kill firefox if the testcase doesn't terminate within n seconds",
    "Use Valgrind",
    "Use Xvfb"
  ]
}
