/** Character classes and the few Python string operations the module relies on:
    `in` on strings, `str.split`, `str.splitlines`, `str.startswith` and `int()`
    of a digit string. The regular-expression classes are the ASCII meaning of
    `\d`, `\w` and `\s`. */
module Text {

  /** `\d`, ASCII only. */
  predicate IsDigit(c: char) {
    '0' <= c <= '9'
  }

  /** `\w`, ASCII only: a letter, a digit or an underscore. */
  predicate IsWordChar(c: char) {
    'a' <= c <= 'z' || 'A' <= c <= 'Z' || IsDigit(c) || c == '_'
  }

  /** `\s`, ASCII only: space, tab, line feed, carriage return, vertical tab, form feed. */
  predicate IsSpace(c: char) {
    c == ' ' || c == '\t' || c == '\n' || c == '\r' || c as int == 0x0B || c as int == 0x0C
  }

  /** The class `[\d\.]`. */
  predicate IsVersionChar(c: char) {
    IsDigit(c) || c == '.'
  }

  /** The characters at which Python's `str.splitlines()` ends a line. */
  predicate IsLineBreak(c: char) {
    c == '\n' || c == '\r' || c as int in {0x0B, 0x0C, 0x1C, 0x1D, 0x1E, 0x85, 0x2028, 0x2029}
  }

  predicate NotLineBreak(c: char) {
    !IsLineBreak(c)
  }

  predicate All(s: string, p: char -> bool) {
    forall i :: 0 <= i < |s| ==> p(s[i])
  }

  /** `s.startswith(prefix)`. */
  predicate StartsWith(s: string, prefix: string) {
    |prefix| <= |s| && s[..|prefix|] == prefix
  }

  /** The characters of `s` from index `lo` up to, not including, `hi` are all in
      the class `p`. */
  predicate AllIn(s: string, lo: nat, hi: nat, p: char -> bool) {
    lo <= hi <= |s| && forall i :: lo <= i < hi ==> p(s[i])
  }

  /** `w` occurs in `s` at offset `k`. */
  predicate At(s: string, k: nat, w: string) {
    k + |w| <= |s| && forall i :: 0 <= i < |w| ==> s[k + i] == w[i]
  }

  lemma AtSlice(s: string, k: nat, w: string)
    requires At(s, k, w)
    ensures s[k..k + |w|] == w
  {
  }

  lemma SliceAt(s: string, k: nat, e: nat)
    requires k <= e <= |s|
    ensures At(s, k, s[k..e])
  {
  }

  /** The characters an occurrence of `w` covers are those of `w`. */
  lemma AtAll(s: string, k: nat, w: string, p: char -> bool)
    requires At(s, k, w) && All(w, p)
    ensures AllIn(s, k, k + |w|, p)
  {
    forall i | k <= i < k + |w|
      ensures p(s[i])
    {
      assert s[k + (i - k)] == w[i - k];
    }
  }

  lemma AllInSlice(s: string, k: nat, e: nat, p: char -> bool)
    requires AllIn(s, k, e, p)
    ensures All(s[k..e], p)
  {
  }

  /** A run inside a slice is the same run in the whole string, shifted. */
  lemma AllInShift(s: string, k: nat, e: nat, lo: nat, hi: nat, p: char -> bool)
    requires k <= lo <= hi <= e <= |s|
    ensures AllIn(s, lo, hi, p) <==> AllIn(s[k..e], lo - k, hi - k, p)
  {
    if AllIn(s, lo, hi, p) {
      forall i | lo - k <= i < hi - k
        ensures p(s[k..e][i])
      {
        assert s[k..e][i] == s[k + i];
      }
    }
    if AllIn(s[k..e], lo - k, hi - k, p) {
      forall i | lo <= i < hi
        ensures p(s[i])
      {
        assert s[k..e][i - k] == s[i];
      }
    }
  }

  /** The index just past the longest run of characters of class `p` starting at
      `k`: where a greedy `[class]*` stops. */
  function Run(s: string, k: nat, p: char -> bool): (e: nat)
    requires k <= |s|
    ensures k <= e <= |s| && AllIn(s, k, e, p)
    ensures e < |s| ==> !p(s[e])
    decreases |s| - k
  {
    if k == |s| || !p(s[k]) then k else Run(s, k + 1, p)
  }

  /** A greedy run is determined by where the class first fails. */
  lemma {:induction false} RunUnique(s: string, k: nat, p: char -> bool, e: nat)
    requires AllIn(s, k, e, p) && (e < |s| ==> !p(s[e]))
    ensures Run(s, k, p) == e
    decreases e - k
  {
    if k < e {
      RunUnique(s, k + 1, p, e);
    }
  }

  /** `t in s` for strings. */
  predicate Contains(s: string, t: string)
    decreases |s|
  {
    StartsWith(s, t) || (s != [] && Contains(s[1..], t))
  }

  /** `s.split(c)`: the pieces between occurrences of `c`; never empty. */
  function SplitOn(s: string, c: char): (parts: seq<string>)
    ensures |parts| >= 1
    decreases |s|
  {
    if s == [] then [""]
    else
      var rest := SplitOn(s[1..], c);
      if s[0] == c then [""] + rest else [[s[0]] + rest[0]] + rest[1..]
  }

  lemma {:induction false} SplitOnFree(a: string, c: char)
    requires c !in a
    ensures SplitOn(a, c) == [a]
  {
    if a != [] {
      assert c !in a[1..] by {
        forall i | 0 <= i < |a[1..]| ensures a[1..][i] != c {
          assert a[1..][i] == a[i + 1];
        }
      }
      SplitOnFree(a[1..], c);
      assert [a[0]] + a[1..] == a;
    }
  }

  lemma {:induction false} SplitOnConcat(a: string, b: string, c: char)
    requires c !in a
    ensures SplitOn(a + [c] + b, c) == [a] + SplitOn(b, c)
  {
    if a == [] {
      assert a + [c] + b == [c] + b;
      assert ([c] + b)[1..] == b;
    } else {
      assert (a + [c] + b)[1..] == a[1..] + [c] + b;
      assert c !in a[1..] by {
        forall i | 0 <= i < |a[1..]| ensures a[1..][i] != c {
          assert a[1..][i] == a[i + 1];
        }
      }
      SplitOnConcat(a[1..], b, c);
      assert [a[0]] + a[1..] == a;
    }
  }

  /** `s.splitlines()`: the lines of `s` without their terminators; "\r\n" ends one
      line, a final terminator does not start an empty line, and "" has no lines. */
  function SplitLines(s: string): (lines: seq<string>)
    ensures forall i :: 0 <= i < |lines| ==> All(lines[i], NotLineBreak)
    decreases |s|
  {
    if s == [] then []
    else
      var k := Run(s, 0, NotLineBreak);
      AllInSlice(s, 0, k, NotLineBreak);
      if k == |s| then [s]
      else
        var next := if s[k] == '\r' && k + 1 < |s| && s[k + 1] == '\n' then k + 2 else k + 1;
        [s[..k]] + SplitLines(s[next..])
  }

  /** The first line of a text is everything before its first line break. */
  lemma FirstLine(line: string, brk: char, rest: string)
    requires All(line, NotLineBreak) && IsLineBreak(brk)
    ensures SplitLines(line + [brk] + rest) != []
    ensures SplitLines(line + [brk] + rest)[0] == line
  {
    FirstRun(line, brk, rest);
    assert (line + [brk] + rest)[..|line|] == line;
  }

  /** A line ended by a single-character break is the first line, and the text
      after the break is split on its own. */
  lemma SplitLinesCons(a: string, c: char, b: string)
    requires All(a, NotLineBreak) && IsLineBreak(c) && c != '\r'
    ensures SplitLines(a + [c] + b) == [a] + SplitLines(b)
  {
    var s := a + [c] + b;
    FirstRun(a, c, b);
    assert s[..|a|] == a;
    assert s[|a| + 1..] == b;
  }

  /** A line ended by "\r" that is not followed by "\n" is the first line. */
  lemma SplitLinesCr(a: string, b: string)
    requires All(a, NotLineBreak) && (b == [] || b[0] != '\n')
    ensures SplitLines(a + ['\r'] + b) == [a] + SplitLines(b)
  {
    var s := a + ['\r'] + b;
    FirstRun(a, '\r', b);
    assert s[..|a|] == a;
    assert s[|a| + 1..] == b;
  }

  /** "\r\n" ends one line, not two. */
  lemma SplitLinesCrLf(a: string, b: string)
    requires All(a, NotLineBreak)
    ensures SplitLines(a + ['\r', '\n'] + b) == [a] + SplitLines(b)
  {
    var s := a + ['\r', '\n'] + b;
    assert s == a + ['\r'] + (['\n'] + b);
    FirstRun(a, '\r', ['\n'] + b);
    assert s[..|a|] == a;
    assert s[|a| + 2..] == b;
  }

  /** A non-empty text without a break is a single line. */
  lemma SplitLinesOne(a: string)
    requires a != [] && All(a, NotLineBreak)
    ensures SplitLines(a) == [a]
  {
    RunUnique(a, 0, NotLineBreak, |a|);
  }

  /** The first run of non-breaks of `a + [c] + b` is `a`. */
  lemma FirstRun(a: string, c: char, b: string)
    requires All(a, NotLineBreak) && IsLineBreak(c)
    ensures Run(a + [c] + b, 0, NotLineBreak) == |a|
    ensures (a + [c] + b)[|a|] == c
  {
    var s := a + [c] + b;
    assert AllIn(s, 0, |a|, NotLineBreak) by {
      forall i | 0 <= i < |a|
        ensures NotLineBreak(s[i])
      {
        assert s[i] == a[i];
      }
    }
    RunUnique(s, 0, NotLineBreak, |a|);
  }

  /** `int(s)` for a string of ASCII digits. */
  function Decimal(s: string): nat
    requires All(s, IsDigit)
  {
    if s == [] then 0
    else 10 * Decimal(s[..|s| - 1]) + (s[|s| - 1] as int - '0' as int)
  }
}
