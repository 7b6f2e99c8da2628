/**
 * The pure parts of `repro`: the keyword arguments and binary handed to
 * the browser launcher, and the product abbreviation printed at the end.
 */
module Repro {
  import opened Wrappers
  import opened Text
  import opened Registry
  import opened Paths
  import opened Config
  import Reduce

  /** `s * n` for a string. */
  function Repeat(s: string, n: nat): (r: string)
    ensures |r| == n * |s|
  {
    if n == 0 then ""
    else
      assert n * |s| == |s| + (n - 1) * |s|;
      s + Repeat(s, n - 1)
  }

  /** Repeating `a + b` times is repeating `a` times, then `b` times. */
  lemma {:induction false} RepeatAdd(s: string, a: nat, b: nat)
    ensures Repeat(s, a + b) == Repeat(s, a) + Repeat(s, b)
  {
    if a > 0 {
      RepeatAdd(s, a - 1, b);
      assert a + b - 1 == (a - 1) + b;
    }
  }

  /** `s * m * n` is `s` repeated `m * n` times. */
  lemma {:induction false} RepeatRepeat(s: string, m: nat, n: nat)
    ensures Repeat(Repeat(s, m), n) == Repeat(s, m * n)
  {
    if n > 0 {
      RepeatRepeat(s, m, n - 1);
      assert m * n == m + m * (n - 1);
      RepeatAdd(s, m, m * (n - 1));
    }
  }

  /** `self.memory * 1024 * 1024`: megabytes to bytes for a number, repetition for a string. */
  function MemoryLimit(v: Value): Result<Value> {
    match v
    case Int(i) => Ok(Int(i * 1024 * 1024))
    case Bool(b) => Ok(Int((if b then 1 else 0) * 1024 * 1024))
    case Str(s) => Ok(Str(Repeat(Repeat(s, 1024), 1024)))
    case Null => Err(TypeError)
  }

  /** The arguments of `ffp.launch`: the browser binary and the keyword arguments. */
  datatype Launch = Launch(binary: string, kwds: map<string, Value>)

  ghost predicate ReproReady(vals: map<string, Value>) {
    && "prefs" in vals && "safemode" in vals && "extension" in vals && "extension_path" in vals
    && "memory" in vals && "buildpath" in vals && "build" in vals
  }

  /** The keyword arguments `repro` builds for the launcher. */
  function ReproKwds(vals: map<string, Value>, h: Home, testcase: string): Result<map<string, Value>>
    requires ReproReady(vals)
  {
    match Get(vals, "prefs", h)
    case Err(e) => Err(e)
    case Ok(prefs) =>
      var base := map["prefs_js" := prefs, "location" := Str(testcase)];
      var safe := if Truthy(vals["safemode"]) then base["safe_mode" := Bool(true)] else base;
      var ext :=
        if !Truthy(vals["extension"]) then Ok(safe)
        else (match Get(vals, "extension_path", h) case Err(e) => Err(e) case Ok(p) => Ok(safe["extension" := p]));
      match ext
      case Err(e) => Err(e)
      case Ok(kw) =>
        if !Truthy(vals["memory"]) then Ok(kw)
        else (match MemoryLimit(vals["memory"]) case Err(e) => Err(e) case Ok(m) => Ok(kw["memory_limit" := m]))
  }

  /** `ffp.launch(os.path.join(self.buildpath, self.build, 'firefox'), **kwds)` */
  function ReproLaunch(vals: map<string, Value>, h: Home, testcase: string): Result<Launch>
    requires ReproReady(vals)
  {
    match ReproKwds(vals, h, testcase)
    case Err(e) => Err(e)
    case Ok(kw) =>
      match Reduce.Binary(vals, h)
      case Err(e) => Err(e)
      case Ok(bin) => Ok(Launch(bin, kw))
  }

  /**
   * The launcher is reached exactly when the prefs path, the extension path
   * (if the extension is enabled), the build path and the build are strings.
   * It then gets the expanded prefs file and the testcase location, and a
   * safe-mode, extension or memory-limit argument exactly when that option is
   * truthy; a memory limit given in megabytes is passed in bytes.
   */
  lemma LaunchArguments(vals: map<string, Value>, h: Home, testcase: string)
    requires ReproReady(vals)
    ensures var r := ReproLaunch(vals, h, testcase);
      && (r.Ok? <==> vals["prefs"].Str? && (Truthy(vals["extension"]) ==> vals["extension_path"].Str?)
                     && vals["buildpath"].Str? && vals["build"].Str?)
      && (r.Err? ==> r.error == TypeError)
    ensures var r := ReproLaunch(vals, h, testcase);
      r.Ok? ==>
        var kw := r.value.kwds;
        && kw.Keys == {"prefs_js", "location"}
                      + (if Truthy(vals["safemode"]) then {"safe_mode"} else {})
                      + (if Truthy(vals["extension"]) then {"extension"} else {})
                      + (if Truthy(vals["memory"]) then {"memory_limit"} else {})
        && kw["prefs_js"] == Str(ExpandUser(h, vals["prefs"].s))
        && kw["location"] == Str(testcase)
        && ("safe_mode" in kw ==> kw["safe_mode"] == Bool(true))
        && ("extension" in kw ==> kw["extension"] == Str(ExpandUser(h, vals["extension_path"].s)))
        && ("memory_limit" in kw && vals["memory"].Int? ==> kw["memory_limit"] == Int(vals["memory"].i * 1048576))
        && r.value.binary == Paths.Join(Paths.Join(ExpandUser(h, vals["buildpath"].s), vals["build"].s), "firefox")
  {
    KwdsOutcome(vals, h, testcase);
    if ReproLaunch(vals, h, testcase).Ok? {
      KwdsContents(vals, h, testcase);
    }
  }

  /** `ReproKwds` fails, with `TypeError`, exactly when the prefs or the needed extension path is not a string. */
  lemma KwdsOutcome(vals: map<string, Value>, h: Home, testcase: string)
    requires ReproReady(vals)
    ensures var r := ReproKwds(vals, h, testcase);
      && (r.Ok? <==> vals["prefs"].Str? && (Truthy(vals["extension"]) ==> vals["extension_path"].Str?))
      && (r.Err? ==> r.error == TypeError)
  {
  }

  /** The keyword arguments of a successful `ReproKwds`. */
  lemma KwdsContents(vals: map<string, Value>, h: Home, testcase: string)
    requires ReproReady(vals) && ReproKwds(vals, h, testcase).Ok?
    ensures var kw := ReproKwds(vals, h, testcase).value;
      && kw.Keys == {"prefs_js", "location"}
                    + (if Truthy(vals["safemode"]) then {"safe_mode"} else {})
                    + (if Truthy(vals["extension"]) then {"extension"} else {})
                    + (if Truthy(vals["memory"]) then {"memory_limit"} else {})
      && kw["prefs_js"] == Str(ExpandUser(h, vals["prefs"].s))
      && kw["location"] == Str(testcase)
      && ("safe_mode" in kw ==> kw["safe_mode"] == Bool(true))
      && ("extension" in kw ==> kw["extension"] == Str(ExpandUser(h, vals["extension_path"].s)))
      && ("memory_limit" in kw && vals["memory"].Int? ==> kw["memory_limit"] == Int(vals["memory"].i * 1048576))
  {
  }

  /**
   * The `memory_limit` argument is `self.memory * 1024 * 1024` for every
   * truthy value: a number of megabytes in bytes, `True` as one megabyte,
   * and a string repeated 1048576 times, as Python's `*` does.
   */
  lemma LaunchMemory(vals: map<string, Value>, h: Home, testcase: string)
    requires ReproReady(vals)
    ensures var r := ReproLaunch(vals, h, testcase);
      r.Ok? && Truthy(vals["memory"]) ==>
        var m := vals["memory"];
        && "memory_limit" in r.value.kwds
        && (m.Int? ==> r.value.kwds["memory_limit"] == Int(m.i * 1048576))
        && (m.Bool? ==> r.value.kwds["memory_limit"] == Int(1048576))
        && (m.Str? ==> r.value.kwds["memory_limit"] == Str(Repeat(m.s, 1048576)))
  {
    if vals["memory"].Str? {
      RepeatRepeat(vals["memory"].s, 1024, 1024);
    }
  }

  /** The first character of each part, or `IndexError` at the first empty part. */
  function Initials(parts: seq<string>): (r: Result<seq<string>>)
    ensures r.Ok? <==> forall k :: 0 <= k < |parts| ==> parts[k] != ""
    ensures r.Err? ==> r.error == IndexError
    ensures r.Ok? ==> |r.value| == |parts| && forall k :: 0 <= k < |parts| ==> r.value[k] == parts[k][..1]
  {
    if parts == [] then Ok([])
    else if parts[0] == "" then Err(IndexError)
    else
      match Initials(parts[1..])
      case Err(e) => Err(e)
      case Ok(rest) => Ok([parts[0][..1]] + rest)
  }

  /** `'-'.join(part[0] for part in product.split('-'))` */
  function Abbreviate(product: string): Result<string> {
    match Initials(Split(product, '-'))
    case Err(e) => Err(e)
    case Ok(letters) => Ok(Text.Join(letters, '-'))
  }

  lemma AbbreviationDefined(product: string)
    ensures var parts := Split(product, '-');
      && (Abbreviate(product).Ok? <==> Initials(parts).Ok?)
      && (Abbreviate(product).Ok? <==> forall k :: 0 <= k < |parts| ==> parts[k] != "")
      && (Abbreviate(product).Ok? ==> Abbreviate(product).value == Text.Join(Initials(parts).value, '-'))
  {
  }

  /**
   * The abbreviation exists exactly when no `-`-separated part of the
   * product name is empty, and splitting it at `-` gives the first letter
   * of each part, in order.
   */
  lemma AbbreviationParts(product: string)
    ensures var parts := Split(product, '-');
      Abbreviate(product).Ok? <==> forall k :: 0 <= k < |parts| ==> parts[k] != ""
    ensures Abbreviate(product).Err? ==> Abbreviate(product).error == IndexError
    ensures var parts := Split(product, '-');
      Abbreviate(product).Ok? ==>
        var pieces := Split(Abbreviate(product).value, '-');
        |pieces| == |parts| && forall k :: 0 <= k < |parts| ==> pieces[k] == [parts[k][0]]
  {
    AbbreviationDefined(product);
    var parts := Split(product, '-');
    var r := Initials(parts);
    if r.Ok? {
      var pieces := Split(Abbreviate(product).value, '-');
      assert |pieces| == |parts| && forall k :: 0 <= k < |parts| ==> pieces[k] == [parts[k][0]] by {
        SplitPiecesFree(product, '-');
        forall k | 0 <= k < |parts| ensures '-' !in r.value[k] && r.value[k] == [parts[k][0]] {
          assert r.value[k] == parts[k][..1];
          assert parts[k][0] in parts[k];
        }
        SplitJoin(r.value, '-');
      }
    }
  }
}
