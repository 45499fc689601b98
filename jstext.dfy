/**
 * The JavaScript string built-ins the viewer relies on, over `seq<char>`:
 * `indexOf`, `split` on one character, `join`, the `split(token).join(replacement)`
 * idiom, decimal formatting of a counter, `toLowerCase`, `trim` and the
 * case-insensitive prefix tests its regular expressions perform.
 */
module JsText {

  /** `pat` occurs in `s` starting at index `j`. */
  predicate OccursAt(s: string, pat: string, j: nat)
  {
    j + |pat| <= |s| && s[j..j + |pat|] == pat
  }

  /** `pat` occurs somewhere in `s`. */
  ghost predicate Contains(s: string, pat: string)
  {
    exists j: nat :: OccursAt(s, pat, j)
  }

  /** `s.indexOf(pat, from)` for a non-empty `pat`: the first occurrence at or after `from`, or -1. */
  function IndexOf(s: string, pat: string, from: nat): (r: int)
    requires |pat| > 0
    ensures r == -1 || (from <= r && OccursAt(s, pat, r))
    decreases |s| - from
  {
    if from + |pat| > |s| then -1
    else if s[from..from + |pat|] == pat then from
    else IndexOf(s, pat, from + 1)
  }

  /** `indexOf` answers -1 exactly when there is no occurrence at or after `from`. */
  lemma {:induction false} IndexOfNone(s: string, pat: string, from: nat)
    requires |pat| > 0
    ensures IndexOf(s, pat, from) == -1 <==> forall j: nat :: from <= j ==> !OccursAt(s, pat, j)
    decreases |s| - from
  {
    if from + |pat| <= |s| && s[from..from + |pat|] != pat {
      IndexOfNone(s, pat, from + 1);
    }
  }

  /** A found index is the first occurrence at or after `from`. */
  lemma {:induction false} IndexOfFirst(s: string, pat: string, from: nat)
    requires |pat| > 0 && IndexOf(s, pat, from) != -1
    ensures forall j: nat :: from <= j < IndexOf(s, pat, from) ==> !OccursAt(s, pat, j)
    decreases |s| - from
  {
    if from + |pat| <= |s| && s[from..from + |pat|] != pat {
      IndexOfFirst(s, pat, from + 1);
    }
  }

  /** `s.split(sep)` for a one-character separator: always at least one part, empty parts kept. */
  function Split(s: string, sep: char): (parts: seq<string>)
    ensures |parts| >= 1
    ensures forall j :: 0 <= j < |parts| ==> sep !in parts[j]
  {
    if s == [] then [[]]
    else
      var rest := Split(s[1..], sep);
      if s[0] == sep then [[]] + rest
      else [[s[0]] + rest[0]] + rest[1..]
  }

  /** `s.lastIndexOf(c)`: the last index holding `c`, or -1. */
  function LastIndexOf(s: string, c: char): (r: int)
    ensures r == -1 <==> c !in s
    ensures r != -1 ==> 0 <= r < |s| && s[r] == c && c !in s[r + 1..]
  {
    if s == [] then -1
    else if s[|s| - 1] == c then |s| - 1
    else
      var r := LastIndexOf(s[..|s| - 1], c);
      assert s == s[..|s| - 1] + [s[|s| - 1]];
      assert r != -1 ==> s[r + 1..] == s[..|s| - 1][r + 1..] + [s[|s| - 1]];
      r
  }

  /** `parts.join(sep)`. */
  function Join(parts: seq<string>, sep: string): string
  {
    if |parts| == 0 then []
    else if |parts| == 1 then parts[0]
    else parts[0] + sep + Join(parts[1..], sep)
  }

  /** Joining the parts of a split with the same separator gives back the original string. */
  lemma {:induction false} JoinSplit(s: string, sep: char)
    ensures Join(Split(s, sep), [sep]) == s
  {
    if s != [] {
      var rest := Split(s[1..], sep);
      JoinSplit(s[1..], sep);
      if s[0] == sep {
        assert Split(s, sep) == [[]] + rest;
        assert Join([[]] + rest, [sep]) == [] + [sep] + Join(rest, [sep]);
      } else {
        var parts := Split(s, sep);
        assert parts == [[s[0]] + rest[0]] + rest[1..];
        if |rest| == 1 {
          assert parts == [[s[0]] + rest[0]];
        } else {
          assert parts[1..] == rest[1..];
          assert Join(rest, [sep]) == rest[0] + [sep] + Join(rest[1..], [sep]);
        }
      }
    }
  }

  /** Splitting a separator-free head followed by the separator peels off exactly that head. */
  lemma {:induction false} SplitAfterHead(a: string, sep: char, b: string)
    requires sep !in a
    ensures Split(a + [sep] + b, sep) == [a] + Split(b, sep)
  {
    if a == [] {
      assert a + [sep] + b == [sep] + b;
      assert ([sep] + b)[1..] == b;
    } else {
      assert (a + [sep] + b)[1..] == a[1..] + [sep] + b;
      SplitAfterHead(a[1..], sep, b);
      assert [a[0]] + a[1..] == a;
    }
  }

  /** A string without the separator splits into itself alone. */
  lemma {:induction false} SplitWithoutSeparator(a: string, sep: char)
    requires sep !in a
    ensures Split(a, sep) == [a]
  {
    if a != [] {
      SplitWithoutSeparator(a[1..], sep);
      assert [a[0]] + a[1..] == a;
    }
  }

  /** Splitting a join of separator-free parts gives back the parts. */
  lemma {:induction false} SplitJoin(parts: seq<string>, sep: char)
    requires |parts| >= 1
    requires forall j :: 0 <= j < |parts| ==> sep !in parts[j]
    ensures Split(Join(parts, [sep]), sep) == parts
  {
    if |parts| == 1 {
      SplitWithoutSeparator(parts[0], sep);
    } else {
      SplitJoin(parts[1..], sep);
      SplitAfterHead(parts[0], sep, Join(parts[1..], [sep]));
      assert [parts[0]] + parts[1..] == parts;
    }
  }

  /**
   * `s.split(pat).join(rep)` for a non-empty `pat`: every occurrence found scanning left to
   * right, each search resuming after the previous match, is replaced by `rep`.
   */
  function ReplaceAll(s: string, pat: string, rep: string): string
    requires |pat| > 0
    decreases |s|
  {
    if |s| == 0 then []
    else if pat <= s then rep + ReplaceAll(s[|pat|..], pat, rep)
    else [s[0]] + ReplaceAll(s[1..], pat, rep)
  }

  /** Replacing a pattern that does not occur changes nothing. */
  lemma {:induction false} ReplaceAbsent(s: string, pat: string, rep: string)
    requires |pat| > 0 && !Contains(s, pat)
    ensures ReplaceAll(s, pat, rep) == s
    decreases |s|
  {
    if |s| > 0 {
      assert !(pat <= s) by {
        if pat <= s { assert OccursAt(s, pat, 0); }
      }
      assert !Contains(s[1..], pat) by {
        if Contains(s[1..], pat) {
          var j: nat :| OccursAt(s[1..], pat, j);
          OccursInSuffix(s, 1, pat, j);
        }
      }
      ReplaceAbsent(s[1..], pat, rep);
    }
  }

  /** Replacement copies a leading part at none of whose positions the pattern starts. */
  lemma {:induction false} ReplaceSkipsUnmatched(x: string, y: string, pat: string, rep: string)
    requires |pat| > 0
    requires forall j :: 0 <= j < |x| ==> !(pat <= x[j..] + y)
    ensures ReplaceAll(x + y, pat, rep) == x + ReplaceAll(y, pat, rep)
    decreases |x|
  {
    if x == [] {
      assert x + y == y;
    } else {
      assert x[0..] == x;
      assert (x + y)[1..] == x[1..] + y;
      forall j | 0 <= j < |x[1..]|
        ensures !(pat <= x[1..][j..] + y)
      {
        assert x[1..][j..] == x[j + 1..];
      }
      ReplaceSkipsUnmatched(x[1..], y, pat, rep);
      assert x == [x[0]] + x[1..];
    }
  }

  /** Replacing around a character the pattern does not hold works on each side separately. */
  lemma {:induction false} ReplaceAroundChar(x: string, c: char, y: string, pat: string, rep: string)
    requires |pat| > 0 && c !in pat
    ensures ReplaceAll(x + [c] + y, pat, rep) == ReplaceAll(x, pat, rep) + [c] + ReplaceAll(y, pat, rep)
    decreases |x|
  {
    var s := x + [c] + y;
    if x == [] {
      assert s == [c] + y;
      assert s[1..] == y;
    } else if pat <= s && |pat| > |x| {
      PrefixCoversChar(pat, x, c, y);
      assert false;
    } else if pat <= s {
      assert pat <= x by { assert s[..|pat|] == x[..|pat|]; }
      assert s[|pat|..] == x[|pat|..] + [c] + y;
      ReplaceAroundChar(x[|pat|..], c, y, pat, rep);
    } else {
      assert !(pat <= x);
      assert s[1..] == x[1..] + [c] + y;
      ReplaceAroundChar(x[1..], c, y, pat, rep);
    }
  }

  /** A prefix of `x + [c] + y` longer than `x` holds `c`. */
  lemma PrefixCoversChar(pat: string, x: string, c: char, y: string)
    requires pat <= x + [c] + y && |pat| > |x|
    ensures c in pat
  {
    assert pat[|x|] == (x + [c] + y)[|x|];
  }

  /** An occurrence inside a part of a string is exactly an occurrence in the whole string that lies within the part. */
  lemma OccursInSlice(t: string, a: nat, b: nat, pat: string, p: nat)
    requires a <= b <= |t|
    ensures OccursAt(t[a..b], pat, p) <==> a + p + |pat| <= b && OccursAt(t, pat, a + p)
  {
    if a + p + |pat| <= b {
      assert t[a..b][p..p + |pat|] == t[a..b][p..][..|pat|];
      assert t[a..b][p..] == t[a + p..b];
      assert t[a + p..b][..|pat|] == t[a + p..a + p + |pat|];
    }
  }

  /** An occurrence inside a suffix of a string is exactly an occurrence in the whole string past its start. */
  lemma OccursInSuffix(t: string, a: nat, pat: string, p: nat)
    requires a <= |t|
    ensures OccursAt(t[a..], pat, p) <==> OccursAt(t, pat, a + p)
  {
    assert t[a..] == t[a..|t|];
    OccursInSlice(t, a, |t|, pat, p);
  }

  /** A part of a string in which the whole string has no occurrence starting does not contain the pattern. */
  lemma SliceWithout(t: string, a: nat, b: nat, pat: string)
    requires a <= b <= |t| && |pat| > 0
    requires forall j: nat :: a <= j < b ==> !OccursAt(t, pat, j)
    ensures !Contains(t[a..b], pat)
  {
    forall p: nat
      ensures !OccursAt(t[a..b], pat, p)
    {
      OccursInSlice(t, a, b, pat, p);
    }
  }

  /** A suffix starting with an occurrence is the pattern followed by the rest. */
  lemma SuffixAtOccurrence(t: string, j: nat, pat: string)
    requires OccursAt(t, pat, j)
    ensures t[j..] == pat + t[j + |pat|..]
  {
  }

  /** A suffix splits at any later index. */
  lemma SuffixSplit(t: string, a: nat, m: nat)
    requires a <= m <= |t|
    ensures t[a..] == t[a..m] + t[m..]
  {
  }

  /** A pattern found in either side of a concatenation is found in the concatenation. */
  lemma ContainsInConcat(x: string, y: string, pat: string)
    ensures Contains(x, pat) ==> Contains(x + y, pat)
    ensures Contains(y, pat) ==> Contains(x + y, pat)
  {
    if Contains(x, pat) {
      var j: nat :| OccursAt(x, pat, j);
      assert (x + y)[j..j + |pat|] == x[j..j + |pat|];
      assert OccursAt(x + y, pat, j);
    }
    if Contains(y, pat) {
      var j: nat :| OccursAt(y, pat, j);
      assert (x + y)[|x| + j..|x| + j + |pat|] == y[j..j + |pat|];
      assert OccursAt(x + y, pat, |x| + j);
    }
  }

  /** The ASCII digit for `d`. */
  function DigitChar(d: nat): char
    requires d < 10
  {
    ('0' as int + d) as char
  }

  /** `String(n)` for a non-negative integer: its decimal digits, without leading zeros. */
  function NatToString(n: nat): (s: string)
    ensures |s| >= 1
    ensures forall j :: 0 <= j < |s| ==> '0' <= s[j] <= '9'
  {
    if n < 10 then [DigitChar(n)] else NatToString(n / 10) + [DigitChar(n % 10)]
  }

  /** The number a string of decimal digits denotes. */
  function DecimalValue(s: string): nat
  {
    if s == [] then 0
    else
      var last := s[|s| - 1] as int - '0' as int;
      DecimalValue(s[..|s| - 1]) * 10 + (if 0 <= last then last else 0)
  }

  /** Reading back the decimal form of `n` gives `n`. */
  lemma {:induction false} DecimalRoundTrip(n: nat)
    ensures DecimalValue(NatToString(n)) == n
  {
    var s := NatToString(n);
    if n < 10 {
      assert s[..0] == [];
    } else {
      DecimalRoundTrip(n / 10);
      assert s[..|s| - 1] == NatToString(n / 10);
    }
  }

  /** Different counters have different decimal forms. */
  lemma NatToStringInjective(m: nat, n: nat)
    requires NatToString(m) == NatToString(n)
    ensures m == n
  {
    DecimalRoundTrip(m);
    DecimalRoundTrip(n);
  }

  /** ASCII capitals are lowered; every other character is kept. */
  function AsciiLower(c: char): char
  {
    if 'A' <= c <= 'Z' then (c as int + 32) as char else c
  }

  /**
   * `toLowerCase` on one character, restricted to what matters for ASCII comparisons:
   * ASCII capitals, and the Kelvin sign U+212A, the one non-ASCII character whose lower
   * case is an ASCII letter.
   */
  function JsLowerChar(c: char): char
  {
    if c == '\U{212A}' then 'k' else AsciiLower(c)
  }

  /** `s.toLowerCase()` character by character. */
  function ToLowerCase(s: string): (r: string)
    ensures |r| == |s|
    ensures forall j :: 0 <= j < |s| ==> r[j] == JsLowerChar(s[j])
  {
    seq(|s|, j requires 0 <= j < |s| => JsLowerChar(s[j]))
  }

  /** A lower-cased string holds no ASCII capital, and holds a dot only where the original does. */
  lemma LowerCaseShape(s: string)
    ensures forall j :: 0 <= j < |s| ==> !('A' <= ToLowerCase(s)[j] <= 'Z')
    ensures forall j :: 0 <= j < |s| ==> (ToLowerCase(s)[j] == '.' <==> s[j] == '.')
  {
    forall j | 0 <= j < |s|
      ensures !('A' <= ToLowerCase(s)[j] <= 'Z')
      ensures ToLowerCase(s)[j] == '.' <==> s[j] == '.'
    {
      var c := s[j];
      assert ToLowerCase(s)[j] == JsLowerChar(c);
    }
  }

  /** `s` starts with the lower-case ASCII `prefix`, letters compared without case, as a `/^prefix/i` test. */
  predicate StartsWithIgnoringCase(s: string, prefix: string)
  {
    |prefix| <= |s| && forall j :: 0 <= j < |prefix| ==> AsciiLower(s[j]) == prefix[j]
  }

  /** The characters `String.prototype.trim` strips: white space and line terminators. */
  predicate IsJsWhitespace(c: char)
  {
    c == '\t' || c == '\n' || c == '\U{000B}' || c == '\U{000C}' || c == '\r' || c == ' '
    || c == '\U{00A0}' || c == '\U{1680}' || ('\U{2000}' <= c <= '\U{200A}')
    || c == '\U{2028}' || c == '\U{2029}' || c == '\U{202F}' || c == '\U{205F}' || c == '\U{3000}'
    || c == '\U{FEFF}'
  }

  /** `s.trimStart()`. */
  function TrimStart(s: string): (r: string)
    ensures |r| <= |s| && r == s[|s| - |r|..]
    ensures r == [] || !IsJsWhitespace(r[0])
    ensures forall j :: 0 <= j < |s| - |r| ==> IsJsWhitespace(s[j])
  {
    if s != [] && IsJsWhitespace(s[0]) then TrimStart(s[1..]) else s
  }

  /** `s.trimEnd()`. */
  function TrimEnd(s: string): (r: string)
    ensures |r| <= |s| && r == s[..|r|]
    ensures r == [] || !IsJsWhitespace(r[|r| - 1])
    ensures forall j :: |r| <= j < |s| ==> IsJsWhitespace(s[j])
  {
    if s != [] && IsJsWhitespace(s[|s| - 1]) then TrimEnd(s[..|s| - 1]) else s
  }

  /** `s.trim()`. */
  function Trim(s: string): string
  {
    TrimEnd(TrimStart(s))
  }
}
