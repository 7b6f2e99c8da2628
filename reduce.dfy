/**
 * The argument vector `reduce` hands to `lithium`: fixed tokens, the
 * reducer-strategy flags, the interestingness script with its prefs and
 * browser binary, the harness flags, `-v` and the testcase. Each option
 * contributes its tokens by one of four rules.
 */
module Reduce {
  import opened Wrappers
  import opened Text
  import opened Registry
  import opened Paths
  import opened Config

  /** How one option turns into argv tokens. */
  datatype Rule =
    | Switch(key: string, flag: string)           // `if self.key: cmd.append(flag)`
    | WhenSet(key: string, flag: string)          // `if self.key is not None: cmd.extend([flag, self.key])`
    | WhenTruthy(key: string, flag: string)       // `if self.key: cmd.extend((flag, self.key))`
    | WhenTruthyCount(key: string, flag: string)  // `if self.key: cmd.extend((flag, "%d" % self.key))`

  /** The options placed before the interestingness script. */
  const Leading: seq<Rule> := [
    Switch("char", "--char"),
    Switch("js", "--js"),
    WhenSet("strategy", "--strategy"),
    Switch("symbol", "--symbol"),
    WhenSet("reduce_file", "--testcase")
  ]

  /** The options placed after the browser binary. */
  const Trailing: seq<Rule> := [
    Switch("xvfb", "--xvfb"),
    Switch("gdb", "--gdb"),
    Switch("valgrind", "--valgrind"),
    Switch("any_crash", "--any-crash"),
    WhenTruthyCount("min_crashes", "--min-crashes"),
    Switch("no_harness", "--no-harness"),
    WhenTruthyCount("repeat", "--repeat"),
    WhenTruthy("sig", "--sig"),
    WhenTruthyCount("skip", "--skip")
  ]

  /** An argv token must be a string: `subprocess.check_call` raises `TypeError` on anything else. */
  function Token(v: Value): (r: Result<string>)
    ensures r.Ok? <==> v.Str?
    ensures r.Ok? ==> r.value == v.s
  {
    if v.Str? then Ok(v.s) else Err(TypeError)
  }

  /** The integer a numeric value stands for (`True == 1`). */
  function AsInt(v: Value): int
    requires v.Int? || v.Bool?
  {
    if v.Int? then v.i else if v.b then 1 else 0
  }

  /** `"%d" % v`: an integer in decimal (`bool` is an `int`); anything else raises `TypeError`. */
  function FormatD(v: Value): (r: Result<string>)
    ensures r.Ok? <==> v.Int? || v.Bool?
  {
    match v
    case Int(i) => Ok(Decimal(i))
    case Bool(b) => Ok(Decimal(if b then 1 else 0))
    case _ => Err(TypeError)
  }

  /** The tokens one rule contributes for the current value of its option. */
  function Contribution(r: Rule, vals: map<string, Value>): Result<seq<string>>
    requires r.key in vals
  {
    var v := vals[r.key];
    match r
    case Switch(_, flag) => Ok(if Truthy(v) then [flag] else [])
    case WhenSet(_, flag) =>
      if v == Null then Ok([])
      else (match Token(v) case Ok(s) => Ok([flag, s]) case Err(e) => Err(e))
    case WhenTruthy(_, flag) =>
      if !Truthy(v) then Ok([])
      else (match Token(v) case Ok(s) => Ok([flag, s]) case Err(e) => Err(e))
    case WhenTruthyCount(_, flag) =>
      if !Truthy(v) then Ok([])
      else (match FormatD(v) case Ok(s) => Ok([flag, s]) case Err(e) => Err(e))
  }

  ghost predicate HasKeys(rules: seq<Rule>, vals: map<string, Value>) {
    forall i :: 0 <= i < |rules| ==> rules[i].key in vals
  }

  /** The tokens of `rules` in order, or the first error. */
  function Pieces(rules: seq<Rule>, vals: map<string, Value>): Result<seq<string>>
    requires HasKeys(rules, vals)
  {
    if rules == [] then Ok([])
    else
      match Contribution(rules[0], vals)
      case Err(e) => Err(e)
      case Ok(c) =>
        match Pieces(rules[1..], vals)
        case Err(e) => Err(e)
        case Ok(rest) => Ok(c + rest)
  }

  /** `os.path.join(self.buildpath, self.build, 'firefox')` */
  function Binary(vals: map<string, Value>, h: Home): Result<string>
    requires "buildpath" in vals && "build" in vals
  {
    match Get(vals, "buildpath", h)
    case Err(e) => Err(e)
    case Ok(bp) => if vals["build"].Str? then Ok(Paths.Join(Paths.Join(bp.s, vals["build"].s), "firefox")) else Err(TypeError)
  }

  /** The options besides the two tables that `reduce` reads. */
  predicate CoreKey(k: string) {
    k == "reducer" || k == "prefs" || k == "buildpath" || k == "build"
  }

  ghost predicate CoreReady(vals: map<string, Value>) {
    "reducer" in vals && "prefs" in vals && "buildpath" in vals && "build" in vals
  }

  /** The options `reduce` reads are all present. */
  ghost predicate Ready(vals: map<string, Value>) {
    HasKeys(Leading, vals) && HasKeys(Trailing, vals) && CoreReady(vals)
  }

  /** The interestingness script, its prefs and the browser binary. */
  function Core(vals: map<string, Value>, h: Home): Result<seq<string>>
    requires CoreReady(vals)
  {
    match Get(vals, "reducer", h)
    case Err(e) => Err(e)
    case Ok(reducer) =>
      match Get(vals, "prefs", h)
      case Err(e) => Err(e)
      case Ok(prefs) =>
        match Binary(vals, h)
        case Err(e) => Err(e)
        case Ok(bin) => Ok([reducer.s, "-p", prefs.s, bin])
  }

  /** The argv built from a leading and a trailing table of rules. */
  function Argv(lead: seq<Rule>, trail: seq<Rule>, vals: map<string, Value>, h: Home, testcase: string, verbose: bool): Result<seq<string>>
    requires HasKeys(lead, vals) && HasKeys(trail, vals) && CoreReady(vals)
  {
    match Pieces(lead, vals)
    case Err(e) => Err(e)
    case Ok(front) =>
      match Core(vals, h)
      case Err(e) => Err(e)
      case Ok(core) =>
        match Pieces(trail, vals)
        case Err(e) => Err(e)
        case Ok(back) => Ok(["lithium"] + front + core + back + (if verbose then ["-v"] else []) + [testcase])
  }

  /** The argv `reduce(testcase, verbose)` passes to `subprocess.check_call`. */
  function ReduceArgv(vals: map<string, Value>, h: Home, testcase: string, verbose: bool): Result<seq<string>>
    requires Ready(vals)
  {
    Argv(Leading, Trailing, vals, h, testcase, verbose)
  }

  // ---------------------------------------------------------------------------
  // Properties

  /** The value of a rule's option is one its tokens can be made from. */
  predicate Typed(r: Rule, v: Value) {
    match r
    case Switch(_, _) => true
    case WhenSet(_, _) => v == Null || v.Str?
    case WhenTruthy(_, _) => !Truthy(v) || v.Str?
    case WhenTruthyCount(_, _) => !Truthy(v) || v.Int? || v.Bool?
  }

  ghost predicate TableTyped(rules: seq<Rule>, vals: map<string, Value>)
    requires HasKeys(rules, vals)
  {
    forall i :: 0 <= i < |rules| ==> Typed(rules[i], vals[rules[i].key])
  }

  /** Every option `reduce` uses holds a value of a usable type. */
  ghost predicate WellTyped(vals: map<string, Value>)
    requires Ready(vals)
  {
    && TableTyped(Leading, vals) && TableTyped(Trailing, vals)
    && vals["reducer"].Str? && vals["prefs"].Str? && vals["buildpath"].Str? && vals["build"].Str?
  }

  lemma {:induction false} PiecesTyped(rules: seq<Rule>, vals: map<string, Value>)
    requires HasKeys(rules, vals)
    ensures Pieces(rules, vals).Ok? <==> TableTyped(rules, vals)
    ensures Pieces(rules, vals).Err? ==> Pieces(rules, vals).error == TypeError
    decreases |rules|
  {
    if rules != [] {
      assert forall i :: 0 <= i < |rules[1..]| ==> rules[1..][i] == rules[i + 1];
      PiecesTyped(rules[1..], vals);
    }
  }

  /**
   * `reduce` yields an argv exactly when every option it uses has a usable
   * type; otherwise the failure is a `TypeError`.
   */
  lemma ReduceTyped(vals: map<string, Value>, h: Home, testcase: string, verbose: bool)
    requires Ready(vals)
    ensures ReduceArgv(vals, h, testcase, verbose).Ok? <==> WellTyped(vals)
    ensures ReduceArgv(vals, h, testcase, verbose).Err? ==> ReduceArgv(vals, h, testcase, verbose).error == TypeError
  {
    PiecesTyped(Leading, vals);
    PiecesTyped(Trailing, vals);
  }

  /**
   * The argv starts with `lithium` and ends with the testcase, and the
   * script, `-p`, the prefs file and the binary sit right after the
   * reducer-strategy tokens.
   */
  lemma ReduceFrame(vals: map<string, Value>, h: Home, testcase: string, verbose: bool)
    requires Ready(vals) && ReduceArgv(vals, h, testcase, verbose).Ok?
    ensures "reducer" in vals && "prefs" in vals && vals["reducer"].Str? && vals["prefs"].Str?
    ensures "buildpath" in vals && "build" in vals && Binary(vals, h).Ok?
    ensures var argv := ReduceArgv(vals, h, testcase, verbose).value;
      var j := 1 + |Pieces(Leading, vals).value|;
      && |argv| >= j + 5
      && argv[0] == "lithium"
      && argv[|argv| - 1] == testcase
      && argv[1..j] == Pieces(Leading, vals).value
      && argv[j..j + 4] == [ExpandUser(h, vals["reducer"].s), "-p", ExpandUser(h, vals["prefs"].s), Binary(vals, h).value]
      && (verbose <==> argv[|argv| - 2] == "-v" && |argv| - 2 >= j + 4 + |Pieces(Trailing, vals).value|)
  {
  }

  /** Tokens of rules that do not look at a key do not depend on its value. */
  lemma {:induction false} PiecesFrame(rules: seq<Rule>, vals: map<string, Value>, key: string, v: Value)
    requires HasKeys(rules, vals) && key in vals
    requires forall i :: 0 <= i < |rules| ==> rules[i].key != key
    ensures Pieces(rules, vals[key := v]) == Pieces(rules, vals)
    decreases |rules|
  {
    if rules != [] {
      assert forall i :: 0 <= i < |rules[1..]| ==> rules[1..][i] == rules[i + 1];
      PiecesFrame(rules[1..], vals, key, v);
    }
  }

  /** The tokens of `rules` split around the contribution of rule `i`. */
  lemma {:induction false} PiecesSplit(rules: seq<Rule>, vals: map<string, Value>, i: nat)
    requires HasKeys(rules, vals) && i < |rules|
    requires Pieces(rules, vals).Ok?
    ensures Pieces(rules[..i], vals).Ok? && Contribution(rules[i], vals).Ok? && Pieces(rules[i + 1..], vals).Ok?
    ensures Pieces(rules, vals).value ==
      Pieces(rules[..i], vals).value + Contribution(rules[i], vals).value + Pieces(rules[i + 1..], vals).value
    decreases i
  {
    if i > 0 {
      assert rules[1..][..i - 1] == rules[1..i];
      assert rules[1..][i - 1] == rules[i] && rules[1..][i..] == rules[i + 1..];
      PiecesSplit(rules[1..], vals, i - 1);
      assert rules[..i][0] == rules[0] && rules[..i][1..] == rules[1..i];
    } else {
      assert rules[1..] == rules[i + 1..];
    }
  }

  /** A count handed to `lithium` reads back, with `int()`, as the configured number. */
  lemma CountReadsBack(v: Value)
    requires v.Int? || v.Bool?
    ensures FormatD(v).Ok? && ParseInt(FormatD(v).value) == Some(AsInt(v))
  {
    ParseDecimal(AsInt(v));
  }

  /** No two rules of a table read the same option. */
  ghost predicate DistinctKeys(rules: seq<Rule>) {
    forall i, j :: 0 <= i < j < |rules| ==> rules[i].key != rules[j].key
  }

  /** Every option the argv reads is read by one rule or core slot only. */
  ghost predicate ReadOnce(lead: seq<Rule>, trail: seq<Rule>) {
    && DistinctKeys(lead) && DistinctKeys(trail)
    && (forall i, j :: 0 <= i < |lead| && 0 <= j < |trail| ==> lead[i].key != trail[j].key)
    && (forall i :: 0 <= i < |lead| ==> !CoreKey(lead[i].key))
    && (forall j :: 0 <= j < |trail| ==> !CoreKey(trail[j].key))
  }

  lemma LeadingDistinct()
    ensures DistinctKeys(Leading)
    ensures forall i :: 0 <= i < |Leading| ==> !CoreKey(Leading[i].key)
  {
  }

  lemma TrailingDistinct()
    ensures DistinctKeys(Trailing)
    ensures forall j :: 0 <= j < |Trailing| ==> !CoreKey(Trailing[j].key)
  {
  }

  lemma TablesDisjoint()
    ensures forall i, j :: 0 <= i < |Leading| && 0 <= j < |Trailing| ==> Leading[i].key != Trailing[j].key
  {
  }

  lemma ReduceReadsOnce()
    ensures ReadOnce(Leading, Trailing)
  {
    LeadingDistinct();
    TrailingDistinct();
    TablesDisjoint();
  }

  lemma RegroupLead(l: seq<string>, x: seq<string>, c: seq<string>, y: seq<string>, core: seq<string>, back: seq<string>, tail: seq<string>)
    ensures l + (x + c + y) + core + back + tail == (l + x) + c + (y + core + back + tail)
  {
  }

  lemma RegroupTrail(l: seq<string>, front: seq<string>, core: seq<string>, x: seq<string>, c: seq<string>, y: seq<string>, tail: seq<string>)
    ensures l + front + core + (x + c + y) + tail == (l + front + core + x) + c + (y + tail)
  {
  }

  /** Replacing the middle of `pre + c0 + post` by `c1`, stated by positions. */
  lemma Replaced(a0: seq<string>, a1: seq<string>, pre: seq<string>, c0: seq<string>, c1: seq<string>, post: seq<string>)
    requires a0 == pre + c0 + post && a1 == pre + c1 + post
    ensures exists p, q :: 0 <= p <= q <= |a0| && a0[p..q] == c0 && a1 == a0[..p] + c1 + a0[q..]
  {
    var p, q := |pre|, |pre| + |c0|;
    assert a0[p..q] == c0 && a0[..p] == pre && a0[q..] == post;
  }

  /** No rule of `rules` reads `key`. */
  ghost predicate Unread(rules: seq<Rule>, key: string) {
    forall j :: 0 <= j < |rules| ==> rules[j].key != key
  }

  lemma UnreadAround(t: seq<Rule>, i: nat)
    requires DistinctKeys(t) && i < |t|
    ensures Unread(t[..i], t[i].key) && Unread(t[i + 1..], t[i].key)
  {
    assert forall j :: i < j < |t| ==> t[j].key != t[i].key;
  }

  /** The pieces of an argv that has been produced. */
  lemma ArgvParts(lead: seq<Rule>, trail: seq<Rule>, vals: map<string, Value>, h: Home, testcase: string, verbose: bool)
    requires HasKeys(lead, vals) && HasKeys(trail, vals) && CoreReady(vals)
    requires Argv(lead, trail, vals, h, testcase, verbose).Ok?
    ensures Pieces(lead, vals).Ok? && Core(vals, h).Ok? && Pieces(trail, vals).Ok?
    ensures Argv(lead, trail, vals, h, testcase, verbose).value ==
      ["lithium"] + Pieces(lead, vals).value + Core(vals, h).value + Pieces(trail, vals).value + (if verbose then ["-v"] else []) + [testcase]
  {
  }

  /** Setting the option of `rules[i]` to `v0` or `v1` changes only the middle of the pieces. */
  lemma PiecesAround(rules: seq<Rule>, i: nat, vals: map<string, Value>, v0: Value, v1: Value)
    requires DistinctKeys(rules) && i < |rules| && HasKeys(rules, vals)
    requires Pieces(rules, vals[rules[i].key := v0]).Ok? && Pieces(rules, vals[rules[i].key := v1]).Ok?
    ensures var w0, w1 := vals[rules[i].key := v0], vals[rules[i].key := v1];
      && Pieces(rules[..i], w0).Ok? && Pieces(rules[i + 1..], w0).Ok?
      && Contribution(rules[i], w0).Ok? && Contribution(rules[i], w1).Ok?
      && Pieces(rules, w0).value == Pieces(rules[..i], w0).value + Contribution(rules[i], w0).value + Pieces(rules[i + 1..], w0).value
      && Pieces(rules, w1).value == Pieces(rules[..i], w0).value + Contribution(rules[i], w1).value + Pieces(rules[i + 1..], w0).value
  {
    var key := rules[i].key;
    var w0, w1 := vals[key := v0], vals[key := v1];
    UnreadAround(rules, i);
    HasKeysSlices(rules, vals, i);
    PiecesFrame(rules[..i], vals, key, v0);
    PiecesFrame(rules[..i], vals, key, v1);
    PiecesFrame(rules[i + 1..], vals, key, v0);
    PiecesFrame(rules[i + 1..], vals, key, v1);
    PiecesSplit(rules, w0, i);
    PiecesSplit(rules, w1, i);
  }

  lemma HasKeysSlices(rules: seq<Rule>, vals: map<string, Value>, i: nat)
    requires HasKeys(rules, vals) && i < |rules|
    ensures HasKeys(rules[..i], vals) && HasKeys(rules[i + 1..], vals) && rules[i].key in vals
  {
  }

  /** Setting an option no rule and no core slot reads leaves those parts alone. */
  lemma OthersUnchanged(rules: seq<Rule>, vals: map<string, Value>, h: Home, key: string, v0: Value, v1: Value)
    requires HasKeys(rules, vals) && CoreReady(vals) && key in vals
    requires Unread(rules, key) && !CoreKey(key)
    ensures Pieces(rules, vals[key := v0]) == Pieces(rules, vals[key := v1])
    ensures Core(vals[key := v0], h) == Core(vals[key := v1], h)
  {
    assert vals[key := v0][key := v1] == vals[key := v1];
    PiecesFrame(rules, vals[key := v0], key, v1);
  }

  /** Changing the option of leading rule `i` changes only that rule's tokens. */
  lemma IsolationLead(lead: seq<Rule>, trail: seq<Rule>, i: nat,
                      vals: map<string, Value>, h: Home, testcase: string, verbose: bool, v0: Value, v1: Value)
    requires ReadOnce(lead, trail) && HasKeys(lead, vals) && HasKeys(trail, vals) && CoreReady(vals) && i < |lead|
    requires Argv(lead, trail, vals[lead[i].key := v0], h, testcase, verbose).Ok?
    requires Argv(lead, trail, vals[lead[i].key := v1], h, testcase, verbose).Ok?
    ensures Contribution(lead[i], vals[lead[i].key := v0]).Ok? && Contribution(lead[i], vals[lead[i].key := v1]).Ok?
    ensures var a0 := Argv(lead, trail, vals[lead[i].key := v0], h, testcase, verbose).value;
      var a1 := Argv(lead, trail, vals[lead[i].key := v1], h, testcase, verbose).value;
      exists p, q :: 0 <= p <= q <= |a0| && a0[p..q] == Contribution(lead[i], vals[lead[i].key := v0]).value
        && a1 == a0[..p] + Contribution(lead[i], vals[lead[i].key := v1]).value + a0[q..]
  {
    var key := lead[i].key;
    var w0, w1 := vals[key := v0], vals[key := v1];
    assert Unread(trail, key);
    OthersUnchanged(trail, vals, h, key, v0, v1);
    ArgvParts(lead, trail, w0, h, testcase, verbose);
    ArgvParts(lead, trail, w1, h, testcase, verbose);
    PiecesAround(lead, i, vals, v0, v1);
    var x, y := Pieces(lead[..i], w0).value, Pieces(lead[i + 1..], w0).value;
    var c0, c1 := Contribution(lead[i], w0).value, Contribution(lead[i], w1).value;
    var core, back := Core(w0, h).value, Pieces(trail, w0).value;
    var tail := (if verbose then ["-v"] else []) + [testcase];
    var a0, a1 := Argv(lead, trail, w0, h, testcase, verbose).value, Argv(lead, trail, w1, h, testcase, verbose).value;
    assert a0 == ["lithium"] + (x + c0 + y) + core + back + tail;
    assert a1 == ["lithium"] + (x + c1 + y) + core + back + tail;
    RegroupLead(["lithium"], x, c0, y, core, back, tail);
    RegroupLead(["lithium"], x, c1, y, core, back, tail);
    Replaced(a0, a1, ["lithium"] + x, c0, c1, y + core + back + tail);
  }

  /** Changing the option of trailing rule `i` changes only that rule's tokens. */
  lemma IsolationTrail(lead: seq<Rule>, trail: seq<Rule>, i: nat,
                       vals: map<string, Value>, h: Home, testcase: string, verbose: bool, v0: Value, v1: Value)
    requires ReadOnce(lead, trail) && HasKeys(lead, vals) && HasKeys(trail, vals) && CoreReady(vals) && i < |trail|
    requires Argv(lead, trail, vals[trail[i].key := v0], h, testcase, verbose).Ok?
    requires Argv(lead, trail, vals[trail[i].key := v1], h, testcase, verbose).Ok?
    ensures Contribution(trail[i], vals[trail[i].key := v0]).Ok? && Contribution(trail[i], vals[trail[i].key := v1]).Ok?
    ensures var a0 := Argv(lead, trail, vals[trail[i].key := v0], h, testcase, verbose).value;
      var a1 := Argv(lead, trail, vals[trail[i].key := v1], h, testcase, verbose).value;
      exists p, q :: 0 <= p <= q <= |a0| && a0[p..q] == Contribution(trail[i], vals[trail[i].key := v0]).value
        && a1 == a0[..p] + Contribution(trail[i], vals[trail[i].key := v1]).value + a0[q..]
  {
    var key := trail[i].key;
    var w0, w1 := vals[key := v0], vals[key := v1];
    assert Unread(lead, key);
    OthersUnchanged(lead, vals, h, key, v0, v1);
    ArgvParts(lead, trail, w0, h, testcase, verbose);
    ArgvParts(lead, trail, w1, h, testcase, verbose);
    PiecesAround(trail, i, vals, v0, v1);
    var x, y := Pieces(trail[..i], w0).value, Pieces(trail[i + 1..], w0).value;
    var c0, c1 := Contribution(trail[i], w0).value, Contribution(trail[i], w1).value;
    var front, core := Pieces(lead, w0).value, Core(w0, h).value;
    var tail := (if verbose then ["-v"] else []) + [testcase];
    var a0, a1 := Argv(lead, trail, w0, h, testcase, verbose).value, Argv(lead, trail, w1, h, testcase, verbose).value;
    assert a0 == ["lithium"] + front + core + (x + c0 + y) + tail;
    assert a1 == ["lithium"] + front + core + (x + c1 + y) + tail;
    RegroupTrail(["lithium"], front, core, x, c0, y, tail);
    RegroupTrail(["lithium"], front, core, x, c1, y, tail);
    Replaced(a0, a1, ["lithium"] + front + core + x, c0, c1, y + tail);
  }

  /** Whether a table yields tokens does not depend on the value of one of its switches. */
  lemma SwitchTyped(rules: seq<Rule>, i: nat, vals: map<string, Value>, v0: Value, v1: Value)
    requires DistinctKeys(rules) && i < |rules| && rules[i].Switch? && HasKeys(rules, vals)
    ensures TableTyped(rules, vals[rules[i].key := v0]) == TableTyped(rules, vals[rules[i].key := v1])
  {
    var key := rules[i].key;
    forall j | 0 <= j < |rules|
      ensures Typed(rules[j], vals[key := v0][rules[j].key]) == Typed(rules[j], vals[key := v1][rules[j].key])
    {
      if j != i {
        assert rules[j].key != key;
      }
    }
  }

  lemma ArgvOk(lead: seq<Rule>, trail: seq<Rule>, vals: map<string, Value>, h: Home, testcase: string, verbose: bool)
    requires HasKeys(lead, vals) && HasKeys(trail, vals) && CoreReady(vals)
    ensures Argv(lead, trail, vals, h, testcase, verbose).Ok? <==> Pieces(lead, vals).Ok? && Core(vals, h).Ok? && Pieces(trail, vals).Ok?
  {
  }

  /** Whether the argv can be built does not depend on the value of a switch. */
  lemma ToggleDefined(lead: seq<Rule>, trail: seq<Rule>, inLead: bool, i: nat,
                      vals: map<string, Value>, h: Home, testcase: string, verbose: bool, on: Value, off: Value)
    requires ReadOnce(lead, trail) && HasKeys(lead, vals) && HasKeys(trail, vals) && CoreReady(vals)
    requires i < |if inLead then lead else trail| && (if inLead then lead else trail)[i].Switch?
    ensures var r := (if inLead then lead else trail)[i];
      Argv(lead, trail, vals[r.key := on], h, testcase, verbose).Ok? <==> Argv(lead, trail, vals[r.key := off], h, testcase, verbose).Ok?
  {
    var t, other := (if inLead then lead else trail), (if inLead then trail else lead);
    var r := t[i];
    var w1, w0 := vals[r.key := on], vals[r.key := off];
    PiecesTyped(t, w1);
    PiecesTyped(t, w0);
    SwitchTyped(t, i, vals, on, off);
    assert Unread(other, r.key) && !CoreKey(r.key);
    OthersUnchanged(other, vals, h, r.key, on, off);
    ArgvOk(lead, trail, w1, h, testcase, verbose);
    ArgvOk(lead, trail, w0, h, testcase, verbose);
  }

  /** Replacing nothing by a flag is inserting the flag. */
  lemma InsertedAt(a0: seq<string>, a1: seq<string>, flag: string)
    requires exists p, q :: 0 <= p <= q <= |a0| && a0[p..q] == [] && a1 == a0[..p] + [flag] + a0[q..]
    ensures exists p :: 0 <= p <= |a0| && a1 == a0[..p] + [flag] + a0[p..]
  {
    var p, q :| 0 <= p <= q <= |a0| && a0[p..q] == [] && a1 == a0[..p] + [flag] + a0[q..];
    assert a0[q..] == a0[p..];
  }

  /** Turning a boolean option on inserts exactly its flag and changes nothing else. */
  lemma ToggleIn(lead: seq<Rule>, trail: seq<Rule>, inLead: bool, i: nat,
                 vals: map<string, Value>, h: Home, testcase: string, verbose: bool, on: Value, off: Value)
    requires ReadOnce(lead, trail) && HasKeys(lead, vals) && HasKeys(trail, vals) && CoreReady(vals)
    requires i < |if inLead then lead else trail| && (if inLead then lead else trail)[i].Switch?
    requires Truthy(on) && !Truthy(off)
    ensures var r := (if inLead then lead else trail)[i];
      var a1, a0 := Argv(lead, trail, vals[r.key := on], h, testcase, verbose), Argv(lead, trail, vals[r.key := off], h, testcase, verbose);
      && (a1.Ok? <==> a0.Ok?)
      && (a1.Ok? ==> exists p :: 0 <= p <= |a0.value| && a1.value == a0.value[..p] + [r.flag] + a0.value[p..])
  {
    var r := (if inLead then lead else trail)[i];
    var w1, w0 := vals[r.key := on], vals[r.key := off];
    ToggleDefined(lead, trail, inLead, i, vals, h, testcase, verbose, on, off);
    var a1, a0 := Argv(lead, trail, w1, h, testcase, verbose), Argv(lead, trail, w0, h, testcase, verbose);
    if a1.Ok? {
      if inLead {
        IsolationLead(lead, trail, i, vals, h, testcase, verbose, off, on);
      } else {
        IsolationTrail(lead, trail, i, vals, h, testcase, verbose, off, on);
      }
      assert Contribution(r, w0).value == [] && Contribution(r, w1).value == [r.flag];
      InsertedAt(a0.value, a1.value, r.flag);
    }
  }

  /**
   * Changing one option of either table of `reduce` changes only that
   * option's own tokens: the argv before and after them stays the same.
   */
  lemma Isolation(vals: map<string, Value>, h: Home, testcase: string, verbose: bool, inLead: bool, i: nat, v0: Value, v1: Value)
    requires Ready(vals) && i < |if inLead then Leading else Trailing|
    requires var key := (if inLead then Leading else Trailing)[i].key;
      && ReduceArgv(vals[key := v0], h, testcase, verbose).Ok?
      && ReduceArgv(vals[key := v1], h, testcase, verbose).Ok?
    ensures var r := (if inLead then Leading else Trailing)[i];
      Contribution(r, vals[r.key := v0]).Ok? && Contribution(r, vals[r.key := v1]).Ok?
    ensures var r := (if inLead then Leading else Trailing)[i];
      var a0 := ReduceArgv(vals[r.key := v0], h, testcase, verbose).value;
      var a1 := ReduceArgv(vals[r.key := v1], h, testcase, verbose).value;
      exists p, q :: 0 <= p <= q <= |a0| && a0[p..q] == Contribution(r, vals[r.key := v0]).value
        && a1 == a0[..p] + Contribution(r, vals[r.key := v1]).value + a0[q..]
  {
    ReduceReadsOnce();
    if inLead {
      IsolationLead(Leading, Trailing, i, vals, h, testcase, verbose, v0, v1);
    } else {
      IsolationTrail(Leading, Trailing, i, vals, h, testcase, verbose, v0, v1);
    }
  }

  /**
   * Turning a boolean option on inserts exactly its flag into the argv and
   * changes nothing else; whether an argv is produced does not depend on it.
   */
  lemma ToggleSwitch(vals: map<string, Value>, h: Home, testcase: string, verbose: bool, inLead: bool, i: nat, on: Value, off: Value)
    requires Ready(vals) && i < |if inLead then Leading else Trailing|
    requires (if inLead then Leading else Trailing)[i].Switch?
    requires Truthy(on) && !Truthy(off)
    ensures var r := (if inLead then Leading else Trailing)[i];
      var a1, a0 := ReduceArgv(vals[r.key := on], h, testcase, verbose), ReduceArgv(vals[r.key := off], h, testcase, verbose);
      && (a1.Ok? <==> a0.Ok?)
      && (a1.Ok? ==> exists p :: 0 <= p <= |a0.value| && a1.value == a0.value[..p] + [r.flag] + a0.value[p..])
  {
    ReduceReadsOnce();
    ToggleIn(Leading, Trailing, inLead, i, vals, h, testcase, verbose, on, off);
  }

  /** `-v` goes right before the testcase exactly when `verbose` is set. */
  lemma VerboseFlag(vals: map<string, Value>, h: Home, testcase: string)
    requires Ready(vals)
    ensures var a1, a0 := ReduceArgv(vals, h, testcase, true), ReduceArgv(vals, h, testcase, false);
      && (a1.Ok? <==> a0.Ok?)
      && (a1.Ok? ==> |a0.value| >= 1 && a1.value == a0.value[..|a0.value| - 1] + ["-v", testcase])
  {
  }

  lemma LeadingRegistered()
    ensures forall i :: 0 <= i < |Leading| ==> Leading[i].key in NameSet
  {
    assert Names[3] == "char" && Names[7] == "js" && Names[19] == "strategy";
    assert Names[20] == "symbol" && Names[13] == "reduce_file";
  }

  lemma TrailingRegistered()
    ensures forall i :: 0 <= i < |Trailing| ==> Trailing[i].key in NameSet
  {
    assert Names[23] == "xvfb" && Names[6] == "gdb" && Names[22] == "valgrind";
    assert Names[0] == "any_crash" && Names[10] == "min_crashes" && Names[11] == "no_harness";
    assert Names[15] == "repeat" && Names[17] == "sig" && Names[18] == "skip";
  }

  /** A store holding every registered option has every option `reduce` reads. */
  lemma CompleteReady(st: State)
    requires WellFormed(st) && Complete(st)
    ensures Ready(st.values)
  {
    LeadingRegistered();
    TrailingRegistered();
  }
}
