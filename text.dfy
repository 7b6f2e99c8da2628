/**
 * The handful of Python string operations the configurator relies on:
 * ordering of `str` (as `sorted` and `json.dump(sort_keys=True)` use it),
 * `str.split` with a separator and its inverse `str.join`, `str.strip`,
 * `str.startswith`, `str.replace` of one character, `"%d" % n` and `int(s)`.
 */
module Text {
  import opened Wrappers

  // ---------------------------------------------------------------------------
  // Ordering of strings: lexicographic by code point, as Python compares str.

  predicate Less(a: string, b: string)
    decreases |a|
  {
    if |a| == 0 then |b| > 0
    else if |b| == 0 then false
    else a[0] < b[0] || (a[0] == b[0] && Less(a[1..], b[1..]))
  }

  predicate LessEq(a: string, b: string) {
    a == b || Less(a, b)
  }

  lemma {:induction false} LessIrreflexive(a: string)
    ensures !Less(a, a)
  {
    if |a| > 0 {
      LessIrreflexive(a[1..]);
    }
  }

  lemma {:induction false} LessTransitive(a: string, b: string, c: string)
    requires Less(a, b) && Less(b, c)
    ensures Less(a, c)
  {
    if |a| > 0 && a[0] == b[0] && b[0] == c[0] {
      LessTransitive(a[1..], b[1..], c[1..]);
    }
  }

  lemma {:induction false} LessTotal(a: string, b: string)
    requires a != b
    ensures Less(a, b) || Less(b, a)
  {
    if |a| > 0 && |b| > 0 && a[0] == b[0] {
      assert a == [a[0]] + a[1..] && b == [b[0]] + b[1..];
      LessTotal(a[1..], b[1..]);
    }
  }

  lemma LessAsymmetric(a: string, b: string)
    requires Less(a, b)
    ensures !Less(b, a)
  {
    if Less(b, a) {
      LessTransitive(a, b, a);
      LessIrreflexive(a);
    }
  }

  lemma LessEqTransitive(a: string, b: string, c: string)
    requires LessEq(a, b) && LessEq(b, c)
    ensures LessEq(a, c)
  {
    if a != b && b != c {
      LessTransitive(a, b, c);
    }
  }

  /** Ascending order, duplicates allowed. */
  ghost predicate Sorted(s: seq<string>) {
    forall i, j :: 0 <= i < j < |s| ==> LessEq(s[i], s[j])
  }

  /** Ascending order without duplicates. */
  ghost predicate StrictlySorted(s: seq<string>) {
    forall i, j :: 0 <= i < j < |s| ==> Less(s[i], s[j])
  }

  // ---------------------------------------------------------------------------
  // sorted(): an insertion sort, proved to order and to permute its input.

  function Insert(x: string, s: seq<string>): seq<string>
  {
    if s == [] then [x]
    else if LessEq(x, s[0]) then [x] + s
    else [s[0]] + Insert(x, s[1..])
  }

  function Sort(s: seq<string>): seq<string>
  {
    if s == [] then [] else Insert(s[0], Sort(s[1..]))
  }

  lemma {:induction false} InsertPermutes(x: string, s: seq<string>)
    ensures multiset(Insert(x, s)) == multiset(s) + multiset{x}
  {
    if s != [] && !LessEq(x, s[0]) {
      InsertPermutes(x, s[1..]);
      assert s == [s[0]] + s[1..];
    }
  }

  lemma {:induction false} InsertSorted(x: string, s: seq<string>)
    requires Sorted(s)
    ensures Sorted(Insert(x, s))
  {
    if s == [] {
    } else if LessEq(x, s[0]) {
      forall i, j | 0 <= i < j < |[x] + s| ensures LessEq(([x] + s)[i], ([x] + s)[j]) {
        if i == 0 && j > 1 {
          LessEqTransitive(x, s[0], s[j - 1]);
        }
      }
    } else {
      var r := Insert(x, s[1..]);
      InsertSorted(x, s[1..]);
      InsertPermutes(x, s[1..]);
      LessTotal(x, s[0]);
      forall k | 0 <= k < |r| ensures LessEq(s[0], r[k]) {
        assert r[k] in multiset(r);
        if r[k] != x {
          assert r[k] in multiset(s[1..]);
          var m :| 0 <= m < |s[1..]| && s[1..][m] == r[k];
          assert s[1 + m] == r[k];
        }
      }
    }
  }

  /** `sorted(xs)` orders its input ascending. */
  lemma {:induction false} SortSorted(s: seq<string>)
    ensures Sorted(Sort(s))
  {
    if s != [] {
      SortSorted(s[1..]);
      InsertSorted(s[0], Sort(s[1..]));
    }
  }

  /** `sorted(xs)` holds exactly the elements of its input. */
  lemma {:induction false} SortPermutes(s: seq<string>)
    ensures multiset(Sort(s)) == multiset(s)
  {
    if s != [] {
      SortPermutes(s[1..]);
      InsertPermutes(s[0], Sort(s[1..]));
      assert s == [s[0]] + s[1..];
    }
  }

  // ---------------------------------------------------------------------------
  // str.split(sep) and sep.join(parts).

  /** Python's `s.split(sep)` for a one-character separator: empty pieces are kept. */
  function Split(s: string, sep: char): (parts: seq<string>)
    ensures |parts| >= 1
    decreases |s|
  {
    if |s| == 0 then [""]
    else
      var rest := Split(s[1..], sep);
      if s[0] == sep then [""] + rest
      else [[s[0]] + rest[0]] + rest[1..]
  }

  function Join(parts: seq<string>, sep: char): string
    decreases |parts|
  {
    if |parts| == 0 then ""
    else if |parts| == 1 then parts[0]
    else parts[0] + [sep] + Join(parts[1..], sep)
  }

  /** Joining the pieces of a split with the same separator gives back the string. */
  lemma {:induction false} JoinSplit(s: string, sep: char)
    ensures Join(Split(s, sep), sep) == s
  {
    if |s| > 0 {
      var rest := Split(s[1..], sep);
      JoinSplit(s[1..], sep);
      if s[0] == sep {
        assert Split(s, sep)[1..] == rest;
      } else if |rest| == 1 {
        assert s == [s[0]] + s[1..];
      } else {
        assert Split(s, sep)[1..] == rest[1..];
        assert rest == [rest[0]] + rest[1..];
        assert s == [s[0]] + s[1..];
      }
    }
  }

  /** No piece of a split contains the separator. */
  lemma {:induction false} SplitPiecesFree(s: string, sep: char)
    ensures forall k :: 0 <= k < |Split(s, sep)| ==> sep !in Split(s, sep)[k]
  {
    if |s| > 0 {
      SplitPiecesFree(s[1..], sep);
    }
  }

  /** Splitting pieces that are free of the separator after joining them gives them back. */
  lemma {:induction false} SplitJoin(parts: seq<string>, sep: char)
    requires |parts| >= 1
    requires forall k :: 0 <= k < |parts| ==> sep !in parts[k]
    ensures Split(Join(parts, sep), sep) == parts
  {
    if |parts| == 1 {
      SplitFree(parts[0], sep);
    } else {
      SplitJoin(parts[1..], sep);
      SplitPrefix(parts[0], Join(parts[1..], sep), sep);
      assert parts == [parts[0]] + parts[1..];
    }
  }

  /** A joined string contains only the separator and the characters of the parts. */
  lemma {:induction false} JoinFree(parts: seq<string>, sep: char, c: char)
    requires c != sep && forall k :: 0 <= k < |parts| ==> c !in parts[k]
    ensures c !in Join(parts, sep)
    decreases |parts|
  {
    if |parts| > 1 {
      JoinFree(parts[1..], sep, c);
    }
  }

  /** A joined string ends the way its last part does. */
  lemma {:induction false} JoinEnds(parts: seq<string>, sep: char)
    requires |parts| >= 1 && parts[|parts| - 1] != ""
    ensures var j := Join(parts, sep); |j| >= |parts[|parts| - 1]| && j[|j| - 1] == parts[|parts| - 1][|parts[|parts| - 1]| - 1]
    decreases |parts|
  {
    if |parts| > 1 {
      JoinEnds(parts[1..], sep);
    }
  }

  lemma {:induction false} SplitFree(s: string, sep: char)
    requires sep !in s
    ensures Split(s, sep) == [s]
  {
    if |s| > 0 {
      SplitFree(s[1..], sep);
      assert s == [s[0]] + s[1..];
    }
  }

  lemma {:induction false} SplitPrefix(p: string, t: string, sep: char)
    requires sep !in p
    ensures Split(p + [sep] + t, sep) == [p] + Split(t, sep)
  {
    if |p| == 0 {
      assert p + [sep] + t == [sep] + t;
      assert ([sep] + t)[1..] == t;
    } else {
      assert (p + [sep] + t)[1..] == p[1..] + [sep] + t;
      SplitPrefix(p[1..], t, sep);
      assert p == [p[0]] + p[1..];
    }
  }

  // ---------------------------------------------------------------------------
  // str.strip(), str.startswith(), one-character str.replace().

  /** The ASCII characters `str.isspace()` accepts. */
  predicate IsSpace(c: char) {
    var n := c as int;
    n == 32 || 9 <= n <= 13 || 28 <= n <= 31
  }

  /** The index of the first character at or after `i` that is not whitespace, or `|s|`. */
  function SpaceEnd(s: string, i: nat): (r: nat)
    requires i <= |s|
    ensures i <= r <= |s| && (r < |s| ==> !IsSpace(s[r]))
    ensures forall k :: i <= k < r ==> IsSpace(s[k])
    decreases |s| - i
  {
    if i < |s| && IsSpace(s[i]) then SpaceEnd(s, i + 1) else i
  }

  /** The index just past the last character before `j`, and at or after `lo`, that is not whitespace, or `lo`. */
  function SpaceStart(s: string, lo: nat, j: nat): (r: nat)
    requires lo <= j <= |s|
    ensures lo <= r <= j && (r > lo ==> !IsSpace(s[r - 1]))
    ensures forall k :: r <= k < j ==> IsSpace(s[k])
    decreases j
  {
    if j > lo && IsSpace(s[j - 1]) then SpaceStart(s, lo, j - 1) else j
  }

  /** Python's `s.strip()`. */
  function Strip(s: string): string {
    var a := SpaceEnd(s, 0);
    s[a..SpaceStart(s, a, |s|)]
  }

  lemma StripNoSpace(s: string)
    requires forall k :: 0 <= k < |s| ==> !IsSpace(s[k])
    ensures Strip(s) == s
  {
    assert SpaceEnd(s, 0) == 0;
    if |s| > 0 {
      assert SpaceStart(s, 0, |s|) == |s|;
    }
  }

  /** Stripping a string with no whitespace at either end, followed by whitespace, gives it back. */
  lemma StripTrailing(s: string, pad: string)
    requires s != "" && !IsSpace(s[0]) && !IsSpace(s[|s| - 1])
    requires forall k :: 0 <= k < |pad| ==> IsSpace(pad[k])
    ensures Strip(s + pad) == s
  {
    var x := s + pad;
    assert SpaceEnd(x, 0) == 0;
    assert forall k :: |s| <= k < |x| ==> x[k] == pad[k - |s|];
    assert x[|s| - 1] == s[|s| - 1];
    assert SpaceStart(x, 0, |x|) == |s|;
    assert x[..|s|] == s;
  }

  predicate StartsWith(s: string, prefix: string) {
    |prefix| <= |s| && s[..|prefix|] == prefix
  }

  /** Python's `s.replace(a, b)` for single characters. */
  function Replace(s: string, a: char, b: char): (r: string)
    ensures |r| == |s|
  {
    if |s| == 0 then "" else [if s[0] == a then b else s[0]] + Replace(s[1..], a, b)
  }

  /** Replacing a character that does not occur changes nothing. */
  lemma {:induction false} ReplaceAbsent(s: string, a: char, b: char)
    requires a !in s
    ensures Replace(s, a, b) == s
  {
    if |s| > 0 {
      ReplaceAbsent(s[1..], a, b);
      assert s == [s[0]] + s[1..];
    }
  }

  /** Replacing `a` by `b` is undone by replacing `b` by `a` when `b` was absent. */
  lemma {:induction false} ReplaceInverse(s: string, a: char, b: char)
    requires b !in s
    ensures Replace(Replace(s, a, b), b, a) == s
  {
    if |s| > 0 {
      ReplaceInverse(s[1..], a, b);
      assert s == [s[0]] + s[1..];
    }
  }

  // ---------------------------------------------------------------------------
  // "%d" % n and int(s).

  predicate IsDigit(c: char) {
    '0' <= c <= '9'
  }

  function DigitChar(d: nat): (c: char)
    requires d < 10
    ensures IsDigit(c)
  {
    ('0' as int + d) as char
  }

  function Digits(n: nat): (r: string)
    ensures |r| >= 1 && forall k :: 0 <= k < |r| ==> IsDigit(r[k])
    decreases n
  {
    if n < 10 then [DigitChar(n)] else Digits(n / 10) + [DigitChar(n % 10)]
  }

  /** Python's `"%d" % i`. */
  function Decimal(i: int): string {
    if i < 0 then "-" + Digits(-i) else Digits(i)
  }

  function DigitValue(c: char): nat
    requires IsDigit(c)
  {
    c as int - '0' as int
  }

  /** The number a string of digits and underscores denotes, the underscores ignored. */
  function GroupsValue(s: string): nat
    requires forall k :: 0 <= k < |s| ==> IsDigit(s[k]) || s[k] == '_'
    decreases |s|
  {
    if |s| == 0 then 0
    else if s[|s| - 1] == '_' then GroupsValue(s[..|s| - 1])
    else GroupsValue(s[..|s| - 1]) * 10 + DigitValue(s[|s| - 1])
  }

  /** The digits of a decimal literal as `int()` accepts them: single underscores between digits. */
  predicate DigitGroups(s: string) {
    && |s| > 0 && IsDigit(s[0]) && IsDigit(s[|s| - 1])
    && (forall k :: 0 <= k < |s| ==> IsDigit(s[k]) || s[k] == '_')
    && (forall k, j :: 0 <= k && j == k + 1 < |s| && s[k] == '_' ==> s[j] != '_')
  }

  /** Python's `int(s)` in base 10: surrounding whitespace, an optional sign, digit groups. */
  function ParseInt(s: string): Option<int> {
    ParseSigned(Strip(s))
  }

  function ParseSigned(t: string): Option<int> {
    if |t| > 0 && (t[0] == '+' || t[0] == '-') then
      match ParseMagnitude(t[1..])
      case Some(m) => Some(if t[0] == '-' then -(m as int) else m as int)
      case None => None
    else ParseMagnitude(t)
  }

  function ParseMagnitude(body: string): Option<nat> {
    if DigitGroups(body) then Some(GroupsValue(body)) else None
  }

  lemma {:induction false} DigitsRoundTrip(n: nat)
    ensures GroupsValue(Digits(n)) == n
  {
    if n >= 10 {
      DigitsRoundTrip(n / 10);
      var d := Digits(n / 10) + [DigitChar(n % 10)];
      assert d[..|d| - 1] == Digits(n / 10);
    }
  }

  /** `int("%d" % i) == i`: the thread number a backtrace line is written with reads back. */
  lemma ParseDecimal(i: int)
    ensures ParseInt(Decimal(i)) == Some(i)
  {
    StripDecimal(i);
    if i < 0 {
      ParseNegative(i);
    } else {
      ParseNonNegative(i);
    }
  }

  lemma StripDecimal(i: int)
    ensures Strip(Decimal(i)) == Decimal(i)
  {
    DecimalShape(i);
    StripNoSpace(Decimal(i));
  }

  lemma ParseNegative(i: int)
    requires i < 0
    ensures ParseSigned(Decimal(i)) == Some(i)
  {
    var m: nat := -i;
    ParseDigits(m);
    assert Decimal(i)[0] == '-' && Decimal(i)[1..] == Digits(m);
  }

  lemma ParseNonNegative(i: int)
    requires i >= 0
    ensures ParseSigned(Decimal(i)) == Some(i)
  {
    ParseDigits(i);
    assert IsDigit(Digits(i)[0]);
  }

  lemma ParseDigits(m: nat)
    ensures ParseMagnitude(Digits(m)) == Some(m)
  {
    DigitsRoundTrip(m);
    DigitsGrouped(Digits(m));
  }

  lemma DecimalShape(i: int)
    ensures forall k :: 0 <= k < |Decimal(i)| ==> !IsSpace(Decimal(i)[k])
  {
    var ds := Digits(if i < 0 then -i else i);
    if i < 0 {
      assert Decimal(i) == "-" + ds;
      forall k | 0 <= k < |Decimal(i)| ensures !IsSpace(Decimal(i)[k]) {
        if k > 0 {
          assert Decimal(i)[k] == ds[k - 1];
        }
      }
    }
  }

  lemma DigitsGrouped(ds: string)
    requires |ds| >= 1 && forall k :: 0 <= k < |ds| ==> IsDigit(ds[k])
    ensures DigitGroups(ds)
  {
  }
}
