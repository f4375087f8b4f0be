/** Small value types and string helpers shared by the backend and front-end models:
    optional values, results, the whitespace test behind `strip()`/`trim()`, ASCII lower-casing,
    splitting on a set of separator characters, decimal rendering of numbers, and the
    JavaScript `a || b` fallback on strings. */
module Common {

  datatype Option<+T> = None | Some(value: T)

  datatype Result<+R, +E> = Success(value: R) | Failure(error: E)

  /** JavaScript truthiness of a `string | null`: null and "" are falsy. */
  predicate Truthy(s: Option<string>) {
    s.Some? && s.value != ""
  }

  /** `a || b` on two strings: an empty `a` falls back to `b`. */
  function OrElse(a: string, b: string): (r: string)
    ensures a != "" ==> r == a
    ensures a == "" ==> r == b
  {
    if a != "" then a else b
  }

  /** `a || b` where `a` may be absent (`undefined`/`null`) or empty. */
  function OptOrElse(a: Option<string>, b: string): (r: string)
    ensures Truthy(a) ==> r == a.value
    ensures !Truthy(a) ==> r == b
  {
    if a.Some? then OrElse(a.value, b) else b
  }

  // ---------------------------------------------------------------- whitespace

  /** The characters Python's `str.strip()` removes (`str.isspace`): the ASCII controls
      `\t`..`\r`, the information separators U+001C..U+001F, the space, NEL (U+0085), and
      the Unicode space, line and paragraph separators. */
  const PythonWhitespace: set<char> := {
    '\t', '\n', '\U{B}', '\U{C}', '\r', '\U{1C}', '\U{1D}', '\U{1E}', '\U{1F}', ' ', '\U{85}',
    '\U{A0}', '\U{1680}', '\U{2000}', '\U{2001}', '\U{2002}', '\U{2003}', '\U{2004}',
    '\U{2005}', '\U{2006}', '\U{2007}', '\U{2008}', '\U{2009}', '\U{200A}', '\U{2028}',
    '\U{2029}', '\U{202F}', '\U{205F}', '\U{3000}'}

  /** The characters JavaScript's `String.prototype.trim()` removes: the ASCII controls
      `\t`..`\r`, the space, the Unicode space, line and paragraph separators, and the
      byte-order mark U+FEFF (but not U+001C..U+001F or NEL). */
  const JsWhitespace: set<char> := {
    '\t', '\n', '\U{B}', '\U{C}', '\r', ' ',
    '\U{A0}', '\U{1680}', '\U{2000}', '\U{2001}', '\U{2002}', '\U{2003}', '\U{2004}',
    '\U{2005}', '\U{2006}', '\U{2007}', '\U{2008}', '\U{2009}', '\U{200A}', '\U{2028}',
    '\U{2029}', '\U{202F}', '\U{205F}', '\U{3000}', '\U{FEFF}'}

  /** A string that trimming the characters `ws` reduces to the empty string. */
  predicate IsBlank(s: string, ws: set<char>) {
    forall i :: 0 <= i < |s| ==> s[i] in ws
  }

  /** The characters of `s` at positions `lo` up to `hi` are all whitespace. */
  predicate BlankBetween(s: string, lo: int, hi: int, ws: set<char>) {
    forall k :: lo <= k < hi && 0 <= k < |s| ==> s[k] in ws
  }

  /** The number of leading whitespace characters: all of `s` before it is whitespace,
      and the character at it (if any) is not. */
  function LeadingBlank(s: string, ws: set<char>, from: nat): (n: nat)
    requires from <= |s|
    ensures from <= n <= |s| && BlankBetween(s, from, n, ws) && (n < |s| ==> s[n] !in ws)
    decreases |s| - from
  {
    if from < |s| && s[from] in ws then LeadingBlank(s, ws, from + 1) else from
  }

  /** Where the trailing whitespace of `s[..to]` starts. */
  function TrailingBlank(s: string, ws: set<char>, to: nat): (n: nat)
    requires to <= |s|
    ensures n <= to && BlankBetween(s, n, to, ws) && (n > 0 ==> s[n - 1] !in ws)
  {
    if to > 0 && s[to - 1] in ws then TrailingBlank(s, ws, to - 1) else to
  }

  /** Python `str.strip()` (with `PythonWhitespace`) / JavaScript `String.prototype.trim()`
      (with `JsWhitespace`): the input with its leading and trailing whitespace removed and
      nothing else. */
  function Strip(s: string, ws: set<char>): (r: string)
    ensures r == [] <==> IsBlank(s, ws)
    ensures r == [] || (r[0] !in ws && r[|r| - 1] !in ws)
  {
    var i := LeadingBlank(s, ws, 0);
    if i == |s| then [] else
      var j := TrailingBlank(s, ws, |s|);
      s[i..j]
  }

  /** Stripping removes blank text at the two ends and nothing else: the result is a slice
      of the input with only whitespace before and after it. */
  lemma StripRemovesOnlyEnds(s: string, ws: set<char>)
    ensures var r := Strip(s, ws);
            exists i :: 0 <= i && i + |r| <= |s| && r == s[i..i + |r|] &&
                        BlankBetween(s, 0, i, ws) && BlankBetween(s, i + |r|, |s|, ws)
  {
    var i := LeadingBlank(s, ws, 0);
    if i < |s| {
      var j := TrailingBlank(s, ws, |s|);
      assert s[i..j] == s[i..i + (j - i)];
    }
  }

  // ---------------------------------------------------------------- case

  function LowerChar(c: char): (r: char)
    ensures !('A' <= r <= 'Z')
    ensures !('A' <= c <= 'Z') ==> r == c
  {
    if 'A' <= c <= 'Z' then (c as int + 32) as char else c
  }

  /** Lower-casing of ASCII letters; every other character is kept. */
  function Lower(s: string): (r: string)
    ensures |r| == |s|
    ensures forall i :: 0 <= i < |s| ==> r[i] == LowerChar(s[i])
  {
    if s == [] then [] else [LowerChar(s[0])] + Lower(s[1..])
  }

  /** No upper-case ASCII letter occurs in `s`. */
  predicate IsLowerCase(s: string) {
    forall i :: 0 <= i < |s| ==> !('A' <= s[i] <= 'Z')
  }

  lemma LowerIsLowerCase(s: string)
    ensures IsLowerCase(Lower(s))
  {
  }

  // ---------------------------------------------------------------- splitting

  /** `s.split(sep)` where any character of `seps` separates two parts (Python
      `str.split('_')` and JavaScript `split('/')` or `split(/[/\\]/)`): the parts are
      the maximal runs between separators, so the empty string gives `[""]` and two
      adjacent separators give an empty part between them. */
  function Split(s: string, seps: set<char>): (parts: seq<string>)
    ensures |parts| >= 1
  {
    if s == [] then [[]]
    else
      var rest := Split(s[1..], seps);
      if s[0] in seps then [[]] + rest else [[s[0]] + rest[0]] + rest[1..]
  }

  /** Every part of a split of a lower-case string is lower-case. */
  lemma {:induction false} SplitPartsLowerCase(s: string, seps: set<char>)
    requires IsLowerCase(s)
    ensures forall k :: 0 <= k < |Split(s, seps)| ==> IsLowerCase(Split(s, seps)[k])
  {
    if s != [] {
      SplitPartsLowerCase(s[1..], seps);
      var rest := Split(s[1..], seps);
      var parts := Split(s, seps);
      if s[0] !in seps {
        forall k | 0 <= k < |parts| ensures IsLowerCase(parts[k]) {
          if k == 0 {
            assert IsLowerCase(rest[0]);
            assert parts[0] == [s[0]] + rest[0];
          } else {
            assert parts[k] == rest[k];
          }
        }
      }
    }
  }

  predicate HasNone(s: string, seps: set<char>) {
    forall i :: 0 <= i < |s| ==> s[i] !in seps
  }

  /** No part of a split contains a separator. */
  lemma {:induction false} SplitPartsHaveNoSeparator(s: string, seps: set<char>)
    ensures forall k :: 0 <= k < |Split(s, seps)| ==> HasNone(Split(s, seps)[k], seps)
  {
    if s != [] {
      SplitPartsHaveNoSeparator(s[1..], seps);
      var rest := Split(s[1..], seps);
      if s[0] !in seps {
        var parts := Split(s, seps);
        forall k | 0 <= k < |parts| ensures HasNone(parts[k], seps) {
          if k == 0 {
            assert HasNone(rest[0], seps);
          } else {
            assert parts[k] == rest[k];
          }
        }
      }
    }
  }

  /** Characters the string lacks are lacking from every part of its split too. */
  lemma {:induction false} SplitPartsAvoid(s: string, seps: set<char>, absent: set<char>)
    requires HasNone(s, absent)
    ensures forall k :: 0 <= k < |Split(s, seps)| ==> HasNone(Split(s, seps)[k], absent)
  {
    if s != [] {
      SplitPartsAvoid(s[1..], seps, absent);
      var rest := Split(s[1..], seps);
      if s[0] !in seps {
        var parts := Split(s, seps);
        forall k | 0 <= k < |parts| ensures HasNone(parts[k], absent) {
          if k == 0 {
            assert HasNone(rest[0], absent);
          } else {
            assert parts[k] == rest[k];
          }
        }
      }
    }
  }

  /** A string without separators is its own single part. */
  lemma {:induction false} SplitWithoutSeparator(s: string, seps: set<char>)
    requires HasNone(s, seps)
    ensures Split(s, seps) == [s]
  {
    if s != [] {
      SplitWithoutSeparator(s[1..], seps);
      assert [s[0]] + s[1..] == s;
    }
  }

  function Last<T>(xs: seq<T>): T
    requires |xs| > 0
  {
    xs[|xs| - 1]
  }

  /** The last part of a split (`split(...).pop()`) is the suffix of `s` after its last
      separator: it starts at 0 exactly when there is one part, and is otherwise
      preceded by a separator. */
  lemma {:induction false} SplitLastIsSuffix(s: string, seps: set<char>)
    ensures var parts := Split(s, seps);
            var k := |s| - |Last(parts)|;
            0 <= k <= |s| && s[k..] == Last(parts) &&
            (k == 0 <==> |parts| == 1) &&
            (k > 0 ==> s[k - 1] in seps)
  {
    if s != [] {
      SplitLastIsSuffix(s[1..], seps);
      var rest := Split(s[1..], seps);
      var parts := Split(s, seps);
      if s[0] in seps {
        assert Last(parts) == Last(rest);
      } else if |rest| == 1 {
        assert Last(parts) == [s[0]] + rest[0];
      } else {
        assert Last(parts) == Last(rest);
      }
    }
  }

  /** Everything up to a separator is cut off by a split: the parts of `a + [c] + b` end with
      the parts of `b`. */
  lemma {:induction false} SplitAfterSeparator(a: string, c: char, b: string, seps: set<char>)
    requires c in seps
    ensures var parts := Split(a + [c] + b, seps);
            |parts| > |Split(b, seps)| &&
            parts[|parts| - |Split(b, seps)|..] == Split(b, seps)
  {
    var s := a + [c] + b;
    if a == [] {
      assert s == [c] + b;
      assert s[1..] == b;
    } else {
      assert s[1..] == a[1..] + [c] + b;
      SplitAfterSeparator(a[1..], c, b, seps);
      var rest := Split(s[1..], seps);
      var parts := Split(s, seps);
      if s[0] in seps {
        assert parts == [[]] + rest;
      } else {
        assert parts == [[s[0]] + rest[0]] + rest[1..];
      }
      assert parts[|parts| - |Split(b, seps)|..] == rest[|rest| - |Split(b, seps)|..];
    }
  }

  function MapChars(s: string, f: char -> char): (r: string)
    ensures |r| == |s| && forall i :: 0 <= i < |s| ==> r[i] == f(s[i])
  {
    if s == [] then [] else [f(s[0])] + MapChars(s[1..], f)
  }

  /** `q` is `s` with any of its separators written as any separators: the same length,
      separators at the same positions, and the same characters elsewhere. */
  predicate SameSeparatorPositions(s: string, q: string, seps: set<char>) {
    |q| == |s| &&
    forall i :: 0 <= i < |s| ==> (s[i] in seps <==> q[i] in seps) && (s[i] !in seps ==> q[i] == s[i])
  }

  /** Rewriting separators into other separators, at any chosen positions, does not change
      the parts. */
  lemma {:induction false} SplitIgnoresWhichSeparator(s: string, q: string, seps: set<char>)
    requires SameSeparatorPositions(s, q, seps)
    ensures Split(q, seps) == Split(s, seps)
  {
    if s != [] {
      assert SameSeparatorPositions(s[1..], q[1..], seps) by {
        forall i | 0 <= i < |s| - 1
          ensures (s[1..][i] in seps <==> q[1..][i] in seps) && (s[1..][i] !in seps ==> q[1..][i] == s[1..][i])
        {
          assert s[1..][i] == s[i + 1] && q[1..][i] == q[i + 1];
        }
      }
      SplitIgnoresWhichSeparator(s[1..], q[1..], seps);
    }
  }

  /** The separator characters of `s`, in order. */
  function SeparatorsOf(s: string, seps: set<char>): (r: seq<char>)
    ensures forall i :: 0 <= i < |r| ==> r[i] in seps
  {
    if s == [] then []
    else if s[0] in seps then [s[0]] + SeparatorsOf(s[1..], seps)
    else SeparatorsOf(s[1..], seps)
  }

  /** The parts joined back together, with `gaps[i]` between part `i` and part `i + 1`. */
  function JoinWith(parts: seq<string>, gaps: seq<char>): string
    requires |parts| == |gaps| + 1
    decreases |gaps|
  {
    if gaps == [] then parts[0] else parts[0] + [gaps[0]] + JoinWith(parts[1..], gaps[1..])
  }

  /** Joining puts a character in front of the first part in front of the whole result. */
  lemma {:induction false} JoinWithPrepend(c: char, parts: seq<string>, gaps: seq<char>)
    requires |parts| == |gaps| + 1
    ensures JoinWith([[c] + parts[0]] + parts[1..], gaps) == [c] + JoinWith(parts, gaps)
  {
    var moved := [[c] + parts[0]] + parts[1..];
    if gaps != [] {
      assert moved[1..] == parts[1..];
      var tail := JoinWith(parts[1..], gaps[1..]);
      assert JoinWith(moved, gaps) == ([c] + parts[0]) + [gaps[0]] + tail;
      assert JoinWith(parts, gaps) == parts[0] + [gaps[0]] + tail;
    }
  }

  /** Split and join are inverse: there is one separator fewer than parts, and putting the
      separators back between the parts gives the string again. */
  lemma {:induction false} SplitJoin(s: string, seps: set<char>)
    ensures |Split(s, seps)| == |SeparatorsOf(s, seps)| + 1
    ensures JoinWith(Split(s, seps), SeparatorsOf(s, seps)) == s
  {
    if s != [] {
      SplitJoin(s[1..], seps);
      var rest := Split(s[1..], seps);
      var gaps := SeparatorsOf(s[1..], seps);
      if s[0] in seps {
        var parts := [[]] + rest;
        assert parts[1..] == rest;
        assert JoinWith(parts, [s[0]] + gaps) == [] + [s[0]] + JoinWith(rest, gaps);
      } else {
        JoinWithPrepend(s[0], rest, gaps);
      }
      assert [s[0]] + s[1..] == s;
    }
  }

  // ---------------------------------------------------------------- numbers

  function Digit(d: nat): (c: char)
    requires d < 10
    ensures '0' <= c <= '9'
  {
    ('0' as int + d) as char
  }

  /** The decimal rendering JavaScript template literals give a non-negative integer. */
  function DecimalString(n: nat): (s: string)
    ensures |s| >= 1
    ensures forall i :: 0 <= i < |s| ==> '0' <= s[i] <= '9'
    ensures n > 0 ==> s[0] != '0'
    ensures |s| > 1 ==> s[0] != '0'
  {
    if n < 10 then [Digit(n)] else DecimalString(n / 10) + [Digit(n % 10)]
  }

  function ParseDecimal(s: string): nat
    requires forall i :: 0 <= i < |s| ==> '0' <= s[i] <= '9'
  {
    if s == [] then 0 else ParseDecimal(s[..|s| - 1]) * 10 + (s[|s| - 1] as int - '0' as int)
  }

  /** Reading the rendering back gives the number: the rendering is unambiguous. */
  lemma {:induction false} DecimalRoundTrip(n: nat)
    ensures ParseDecimal(DecimalString(n)) == n
  {
    if n >= 10 {
      DecimalRoundTrip(n / 10);
      var s := DecimalString(n);
      assert s[..|s| - 1] == DecimalString(n / 10);
    }
  }
}
