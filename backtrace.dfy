/**
 * `format_mdsw_backtrace`: read the machine-readable output of
 * `minidump_stackwalk -m` line by line, lock onto one thread and turn each
 * of its `thread|frame|module|function|source|line|offset` records into a
 * frame string.
 */
module Backtrace {
  import opened Wrappers
  import opened Text

  /** `"%d|" % n`: the prefix of the records of thread `n`. */
  function ThreadPrefix(n: int): string {
    Decimal(n) + "|"
  }

  /** A line that can fix the thread: it has a `|` and what precedes the first one is an `int()`. */
  predicate Lockable(line: string) {
    '|' in line && ParseInt(Split(line, '|')[0]).Some?
  }

  function LockOf(line: string): int
    requires Lockable(line)
  {
    ParseInt(Split(line, '|')[0]).value
  }

  /** One step of the loop: the thread number after reading `line`, and whether `line` is parsed. */
  function Scan(threadno: Option<int>, line: string): (r: (Option<int>, bool))
    ensures r.1 ==> r.0.Some?
    ensures threadno.Some? ==> r.0 == threadno && (r.1 <==> StartsWith(line, ThreadPrefix(threadno.value)))
    ensures threadno.None? ==> (r.1 <==> Lockable(line)) && (r.0.Some? <==> r.1)
    ensures threadno.None? && r.1 ==> r.0 == Some(LockOf(line))
  {
    match threadno
    case None =>
      if '|' in line then
        match ParseInt(Split(line, '|')[0])
        case Some(n) => (Some(n), true)
        case None => (None, false)
      else (None, false)
    case Some(n) => (threadno, StartsWith(line, ThreadPrefix(n)))
  }

  /** The frame string of one parsed line; a record that does not unpack raises `ValueError`. */
  function FormatFrame(line: string): Result<string> {
    var fields := Split(Strip(line), '|');
    if |fields| != 7 then Err(ValueError)
    else
      var frame, lib, sym, src, ln, addr := fields[1], fields[2], fields[3], fields[4], fields[5], fields[6];
      if sym != "" && src != "" && ln != "" then
        var parts := Split(src, ':');
        if |parts| != 4 then Err(ValueError)
        else Ok("#" + frame + ": " + sym + ", at " + parts[2] + ":" + ln)
      else Ok("#" + frame + ": " + lib + "+" + addr)
  }

  /** The frames a generator yielded and the exception that ended it, if any. */
  datatype Emitted = Emitted(frames: seq<string>, err: Option<Error>)

  function Prepend(frames: seq<string>, e: Emitted): Emitted {
    Emitted(frames + e.frames, e.err)
  }

  lemma PrependFrame(frames: seq<string>, f: string, e: Emitted)
    ensures Prepend(frames, Prepend([f], e)) == Prepend(frames + [f], e)
  {
    assert frames + ([f] + e.frames) == frames + [f] + e.frames;
  }

  /** What the generator yields for `lines`, starting from the given thread number. */
  function Backtrace(lines: seq<string>, threadno: Option<int>): Emitted
    decreases |lines|
  {
    if lines == [] then Emitted([], None)
    else
      var (t, parse) := Scan(threadno, lines[0]);
      if !parse then Backtrace(lines[1..], t)
      else
        match FormatFrame(lines[0])
        case Err(e) => Emitted([], Some(e))
        case Ok(f) => Prepend([f], Backtrace(lines[1..], t))
  }

  /**
   * The generator loop: `threadno` and `parse_line` are updated line by
   * line, and each parsed line yields one frame.
   */
  method FormatMdswBacktrace(lines: seq<string>, threadno0: Option<int>) returns (frames: seq<string>, err: Option<Error>)
    ensures Emitted(frames, err) == Backtrace(lines, threadno0)
  {
    var threadno := threadno0;
    frames := [];
    for i := 0 to |lines|
      invariant Backtrace(lines, threadno0) == Prepend(frames, Backtrace(lines[i..], threadno))
    {
      var line, before := lines[i], threadno;
      assert lines[i..][0] == line && lines[i..][1..] == lines[i + 1..];
      var parseLine: bool;
      if threadno.None? {
        parseLine := false;
        if '|' in line {
          var n := ParseInt(Split(line, '|')[0]);
          if n.Some? {
            threadno := n;
            parseLine := true;
          }
        }
      } else {
        parseLine := StartsWith(line, ThreadPrefix(threadno.value));
      }
      assert (threadno, parseLine) == Scan(before, line);
      if parseLine {
        var f := FormatFrame(line);
        if f.Err? {
          err := Some(f.error);
          return;
        }
        PrependFrame(frames, f.value, Backtrace(lines[i + 1..], threadno));
        frames := frames + [f.value];
      }
    }
    err := None;
  }

  // ---------------------------------------------------------------------------
  // Which lines are parsed, defined without the loop.

  /** The lines that start with `prefix`, in order, each as often as it occurs. */
  function Filter(lines: seq<string>, prefix: string): (r: seq<string>)
    ensures forall l :: l in r <==> l in lines && StartsWith(l, prefix)
    ensures |r| <= |lines|
  {
    if lines == [] then []
    else (if StartsWith(lines[0], prefix) then [lines[0]] else []) + Filter(lines[1..], prefix)
  }

  /** Filtering keeps every occurrence of a line with the prefix and drops every other line. */
  lemma {:induction false} FilterCounts(lines: seq<string>, prefix: string, l: string)
    ensures multiset(Filter(lines, prefix))[l] == if StartsWith(l, prefix) then multiset(lines)[l] else 0
  {
    if lines != [] {
      assert lines == [lines[0]] + lines[1..];
      FilterCounts(lines[1..], prefix, l);
    }
  }

  /** Filtering keeps the order of the lines: filtering two parts in turn is filtering the whole. */
  lemma {:induction false} FilterConcat(a: seq<string>, b: seq<string>, prefix: string)
    ensures Filter(a + b, prefix) == Filter(a, prefix) + Filter(b, prefix)
  {
    if a == [] {
      assert a + b == b;
    } else {
      var head := if StartsWith(a[0], prefix) then [a[0]] else [];
      assert (a + b)[0] == a[0] && (a + b)[1..] == a[1..] + b;
      assert Filter(a + b, prefix) == head + Filter(a[1..] + b, prefix);
      FilterConcat(a[1..], b, prefix);
      assert Filter(a, prefix) == head + Filter(a[1..], prefix);
    }
  }

  /** The first line that can fix the thread. */
  function FirstLockable(lines: seq<string>): (r: Option<nat>)
    ensures r.Some? ==> r.value < |lines| && Lockable(lines[r.value])
    ensures r.Some? ==> forall j :: 0 <= j < r.value ==> !Lockable(lines[j])
    ensures r.None? ==> forall j :: 0 <= j < |lines| ==> !Lockable(lines[j])
  {
    if lines == [] then None
    else if Lockable(lines[0]) then Some(0)
    else match FirstLockable(lines[1..]) case None => None case Some(f) => Some(f + 1)
  }

  /**
   * The lines the generator parses: with a thread number, the records of
   * that thread; without one, the first line that fixes the thread and then
   * the records of the thread it fixed.
   */
  function Selected(lines: seq<string>, threadno: Option<int>): seq<string> {
    match threadno
    case Some(n) => Filter(lines, ThreadPrefix(n))
    case None =>
      match FirstLockable(lines)
      case None => []
      case Some(f) => [lines[f]] + Filter(lines[f + 1..], ThreadPrefix(LockOf(lines[f])))
  }

  /** Formatting a list of lines, stopping at the first that does not unpack. */
  function FormatAll(lines: seq<string>): Emitted {
    if lines == [] then Emitted([], None)
    else
      match FormatFrame(lines[0])
      case Err(e) => Emitted([], Some(e))
      case Ok(f) => Prepend([f], FormatAll(lines[1..]))
  }

  lemma {:induction false} FollowsThread(lines: seq<string>, n: int)
    ensures Backtrace(lines, Some(n)) == FormatAll(Filter(lines, ThreadPrefix(n)))
    decreases |lines|
  {
    if lines != [] {
      FollowsThread(lines[1..], n);
      var rest := Filter(lines[1..], ThreadPrefix(n));
      if StartsWith(lines[0], ThreadPrefix(n)) {
        assert Filter(lines, ThreadPrefix(n)) == [lines[0]] + rest;
        assert ([lines[0]] + rest)[1..] == rest;
      } else {
        assert Filter(lines, ThreadPrefix(n)) == rest;
      }
    }
  }

  /**
   * The generator yields exactly the formatted selected lines: the thread
   * filter and the record formatting are independent of each other.
   */
  lemma {:induction false} BacktraceSelects(lines: seq<string>, threadno: Option<int>)
    ensures Backtrace(lines, threadno) == FormatAll(Selected(lines, threadno))
    decreases |lines|
  {
    match threadno
    case Some(n) => FollowsThread(lines, n);
    case None =>
      if lines != [] {
        if Lockable(lines[0]) {
          LocksOnFirst(lines);
        } else {
          BacktraceSelects(lines[1..], None);
          SkipsFirst(lines);
        }
      }
  }

  /** A first line that fixes the thread is parsed, and the thread is followed from there. */
  lemma LocksOnFirst(lines: seq<string>)
    requires lines != [] && Lockable(lines[0])
    ensures Backtrace(lines, None) == FormatAll(Selected(lines, None))
  {
    var n := LockOf(lines[0]);
    FollowsThread(lines[1..], n);
    var rest := Filter(lines[1..], ThreadPrefix(n));
    assert Selected(lines, None) == [lines[0]] + rest;
    assert ([lines[0]] + rest)[1..] == rest;
  }

  /** A first line that cannot fix the thread is passed over. */
  lemma SkipsFirst(lines: seq<string>)
    requires lines != [] && !Lockable(lines[0])
    ensures Backtrace(lines, None) == Backtrace(lines[1..], None)
    ensures Selected(lines, None) == Selected(lines[1..], None)
  {
    assert Scan(None, lines[0]) == (None, false);
    SkipsFirstSelected(lines);
  }

  lemma SkipsFirstSelected(lines: seq<string>)
    requires lines != [] && !Lockable(lines[0])
    ensures Selected(lines, None) == Selected(lines[1..], None)
  {
    match FirstLockable(lines[1..])
    case None =>
      assert FirstLockable(lines) == None;
    case Some(f) =>
      assert FirstLockable(lines) == Some(f + 1);
      assert lines[f + 1] == lines[1..][f];
      assert lines[f + 1 + 1..] == lines[1..][f + 1..];
  }

  /** A line that begins with a thread's record prefix fixes that thread. */
  lemma RecordFixesThread(n: int, rest: string)
    ensures Lockable(ThreadPrefix(n) + rest) && LockOf(ThreadPrefix(n) + rest) == n
  {
    var line := ThreadPrefix(n) + rest;
    DecimalNoBar(n);
    assert line == Decimal(n) + ['|'] + rest;
    SplitPrefix(Decimal(n), rest, '|');
    assert line[|Decimal(n)|] == '|';
    ParseDecimal(n);
  }

  lemma DecimalNoBar(n: int)
    ensures '|' !in Decimal(n)
  {
    var ds := Digits(if n < 0 then -n else n);
    assert forall k :: 0 <= k < |ds| ==> IsDigit(ds[k]);
    if n < 0 {
      assert Decimal(n) == "-" + ds;
    }
  }

  // ---------------------------------------------------------------------------
  // Formatting a well-formed record.

  ghost predicate NoBar(fields: seq<string>) {
    forall k :: 0 <= k < |fields| ==> '|' !in fields[k]
  }

  /** A record line: seven `|`-separated fields, no whitespace at either end, then a line ending. */
  ghost predicate RecordLine(fields: seq<string>, eol: string) {
    && |fields| == 7 && NoBar(fields)
    && fields[0] != "" && !IsSpace(fields[0][0])
    && fields[6] != "" && !IsSpace(fields[6][|fields[6]| - 1])
    && forall k :: 0 <= k < |eol| ==> IsSpace(eol[k])
  }

  lemma RecordFields(fields: seq<string>, eol: string)
    requires RecordLine(fields, eol)
    ensures Split(Strip(Join(fields, '|') + eol), '|') == fields
  {
    var rec := Join(fields, '|');
    assert rec == fields[0] + ['|'] + Join(fields[1..], '|');
    JoinEnds(fields, '|');
    StripTrailing(rec, eol);
    SplitJoin(fields, '|');
  }

  /**
   * A record whose function, source and line are all given is formatted
   * as `#frame: function, at file:line`, the file being the third of the
   * four `:`-separated parts of the source.
   */
  lemma FormatSourceFrame(tid: string, frame: string, lib: string, sym: string, src: seq<string>, ln: string, addr: string, eol: string)
    requires |src| == 4 && (forall k :: 0 <= k < 4 ==> ':' !in src[k]) && NoBar(src)
    requires RecordLine([tid, frame, lib, sym, Join(src, ':'), ln, addr], eol)
    requires sym != "" && ln != ""
    ensures FormatFrame(Join([tid, frame, lib, sym, Join(src, ':'), ln, addr], '|') + eol)
      == Ok("#" + frame + ": " + sym + ", at " + src[2] + ":" + ln)
  {
    RecordFields([tid, frame, lib, sym, Join(src, ':'), ln, addr], eol);
    SplitJoin(src, ':');
    assert Join(src, ':') != "" by {
      assert Join(src, ':') == src[0] + [':'] + Join(src[1..], ':');
    }
  }

  /** A record missing its function, source or line is formatted as `#frame: module+offset`. */
  lemma FormatBareFrame(fields: seq<string>, eol: string)
    requires RecordLine(fields, eol)
    requires fields[3] == "" || fields[4] == "" || fields[5] == ""
    ensures FormatFrame(Join(fields, '|') + eol) == Ok("#" + fields[1] + ": " + fields[2] + "+" + fields[6])
  {
    RecordFields(fields, eol);
  }
}
