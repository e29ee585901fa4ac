/** The Python string and path builtins the pipeline relies on, with the
    properties the rest of the model needs about them. */
module Strings {
  import opened Wrappers

  /** str.isspace() for one character: the characters str.strip() removes. */
  predicate IsSpace(c: char) {
    ('\t' <= c <= '\r') || ('\U{1c}' <= c <= ' ') || c == '\U{85}' || c == '\U{a0}'
    || c == '\U{1680}' || ('\U{2000}' <= c <= '\U{200a}') || c == '\U{2028}' || c == '\U{2029}'
    || c == '\U{202f}' || c == '\U{205f}' || c == '\U{3000}'
  }

  predicate AllSpace(s: string) {
    forall k | 0 <= k < |s| :: IsSpace(s[k])
  }

  /** Number of whitespace characters at the start of s. */
  function LeadingSpaces(s: string): (n: nat)
    ensures n <= |s|
    ensures forall k | 0 <= k < n :: IsSpace(s[k])
    ensures n < |s| ==> !IsSpace(s[n])
  {
    if |s| > 0 && IsSpace(s[0]) then 1 + LeadingSpaces(s[1..]) else 0
  }

  /** Number of whitespace characters at the end of s. */
  function TrailingSpaces(s: string): (n: nat)
    ensures n <= |s|
    ensures forall k | |s| - n <= k < |s| :: IsSpace(s[k])
    ensures n < |s| ==> !IsSpace(s[|s| - n - 1])
  {
    if |s| > 0 && IsSpace(s[|s| - 1]) then 1 + TrailingSpaces(s[..|s| - 1]) else 0
  }

  /** str.strip() with no argument. */
  function Strip(s: string): (r: string)
    ensures |r| <= |s|
    ensures r == [] || (!IsSpace(r[0]) && !IsSpace(r[|r| - 1]))
  {
    var t := s[LeadingSpaces(s)..];
    t[..|t| - TrailingSpaces(t)]
  }

  /** Strip removes exactly the whitespace padding around a core that does
      not itself start or end with whitespace. */
  lemma StripPadded(pre: string, core: string, post: string)
    requires AllSpace(pre) && AllSpace(post)
    requires core == [] || (!IsSpace(core[0]) && !IsSpace(core[|core| - 1]))
    ensures Strip(pre + core + post) == core
  {
    var s := pre + core + post;
    var a := LeadingSpaces(s);
    if core == [] {
      assert AllSpace(s) by {
        forall k | 0 <= k < |s| ensures IsSpace(s[k]) {
          if k < |pre| { assert s[k] == pre[k]; } else { assert s[k] == post[k - |pre|]; }
        }
      }
      assert a == |s|;
    } else {
      assert s[|pre|] == core[0];
      assert a == |pre|;
      var t := s[a..];
      assert t == core + post;
      var b := TrailingSpaces(t);
      assert t[|core| - 1] == core[|core| - 1];
      assert b == |post|;
      assert t[..|t| - b] == core;
    }
  }

  /** "".join-style inverse of SplitOn: the parts separated by sep. */
  function JoinWith(parts: seq<string>, sep: char): string {
    if |parts| == 0 then ""
    else if |parts| == 1 then parts[0]
    else parts[0] + [sep] + JoinWith(parts[1..], sep)
  }

  /** str.split(sep) for a one-character separator. */
  function SplitOn(s: string, sep: char): seq<string>
    decreases |s|
  {
    if |s| == 0 then [""]
    else
      var rest := SplitOn(s[1..], sep);
      if s[0] == sep then [""] + rest
      else [[s[0]] + rest[0]] + rest[1..]
  }

  /** What str.split promises: at least one part, no part contains the
      separator, and joining the parts with it gives s back. */
  lemma {:induction false} SplitOnParts(s: string, sep: char)
    ensures |SplitOn(s, sep)| >= 1
    ensures forall i | 0 <= i < |SplitOn(s, sep)| :: sep !in SplitOn(s, sep)[i]
    ensures JoinWith(SplitOn(s, sep), sep) == s
    decreases |s|
  {
    if |s| > 0 {
      var rest := SplitOn(s[1..], sep);
      SplitOnParts(s[1..], sep);
      assert s == [s[0]] + s[1..];
      if s[0] == sep {
        assert ([""] + rest)[1..] == rest;
      } else {
        var r := [[s[0]] + rest[0]] + rest[1..];
        if |rest| > 1 {
          assert r[1..] == rest[1..];
        }
        assert JoinWith(r, sep) == [s[0]] + JoinWith(rest, sep);
      }
    }
  }

  /** Splitting a join of separator-free parts gives the parts back. */
  lemma {:induction false} SplitJoin(parts: seq<string>, sep: char)
    requires |parts| >= 1
    requires forall i | 0 <= i < |parts| :: sep !in parts[i]
    ensures SplitOn(JoinWith(parts, sep), sep) == parts
  {
    var s := JoinWith(parts, sep);
    var r := SplitOn(s, sep);
    SplitOnParts(s, sep);
    SplitUnique(s, sep, r, parts);
  }

  /** The decomposition SplitOn computes is the only one with its two properties. */
  lemma {:induction false} SplitUnique(s: string, sep: char, r: seq<string>, q: seq<string>)
    requires |r| >= 1 && |q| >= 1
    requires forall i | 0 <= i < |r| :: sep !in r[i]
    requires forall i | 0 <= i < |q| :: sep !in q[i]
    requires JoinWith(r, sep) == s && JoinWith(q, sep) == s
    ensures r == q
    decreases |r| + |q|
  {
    if |r| > 1 && |q| > 1 {
      var a, b := r[0], q[0];
      assert a + [sep] + JoinWith(r[1..], sep) == s;
      assert b + [sep] + JoinWith(q[1..], sep) == s;
      SepIndexAfter(a, JoinWith(r[1..], sep), sep);
      SepIndexAfter(b, JoinWith(q[1..], sep), sep);
      assert a == s[..|a|] == b;
      assert JoinWith(r[1..], sep) == s[|a| + 1..] == JoinWith(q[1..], sep);
      SplitUnique(s[|a| + 1..], sep, r[1..], q[1..]);
    }
  }

  /** Index of the first sep in s. */
  function SepIndex(s: string, sep: char): (k: nat)
    requires sep in s
    ensures k < |s|
  {
    if s[0] == sep then 0 else 1 + SepIndex(s[1..], sep)
  }

  lemma {:induction false} SepIndexAfter(x: string, y: string, sep: char)
    requires sep !in x
    ensures sep in x + [sep] + y && SepIndex(x + [sep] + y, sep) == |x|
  {
    var s := x + [sep] + y;
    assert s[|x|] == sep;
    if |x| > 0 {
      assert s[1..] == x[1..] + [sep] + y;
      SepIndexAfter(x[1..], y, sep);
    }
  }

  /** Python's `w in s` for strings. */
  predicate Contains(s: string, w: string)
    decreases |s|
  {
    w <= s || (|s| > 0 && Contains(s[1..], w))
  }

  /** s.count(w): non-overlapping occurrences scanned from the left; an empty
      w occurs len(s) + 1 times. */
  function CountOf(s: string, w: string): (n: nat)
    ensures n > 0 <==> Contains(s, w)
    decreases |s|
  {
    if |w| == 0 then |s| + 1
    else if |s| == 0 then 0
    else if w <= s then 1 + CountOf(s[|w|..], w)
    else CountOf(s[1..], w)
  }

  /** s.replace(pat, "") for a non-empty pat. */
  function RemoveAll(s: string, pat: string): (r: string)
    requires |pat| > 0
    ensures |r| <= |s|
    decreases |s|
  {
    if |s| == 0 then ""
    else if pat <= s then RemoveAll(s[|pat|..], pat)
    else [s[0]] + RemoveAll(s[1..], pat)
  }

  /** A part that cannot start an occurrence of pat passes through unchanged. */
  lemma {:induction false} RemoveAllSkip(x: string, y: string, pat: string)
    requires |pat| > 0 && pat[0] !in x
    ensures RemoveAll(x + y, pat) == x + RemoveAll(y, pat)
    decreases |x|
  {
    if |x| > 0 {
      var s := x + y;
      assert s[0] == x[0] != pat[0];
      assert !(pat <= s);
      assert s[1..] == x[1..] + y;
      RemoveAllSkip(x[1..], y, pat);
    } else {
      assert x + y == y;
    }
  }

  lemma RemoveAllWhole(pat: string)
    requires |pat| > 0
    ensures RemoveAll(pat, pat) == ""
  {
    assert pat[|pat|..] == "";
  }

  predicate IsDigit(c: char) {
    '0' <= c <= '9'
  }

  function DigitChar(d: nat): (c: char)
    requires d < 10
    ensures IsDigit(c)
  {
    "0123456789"[d]
  }

  function DigitValue(c: char): nat
    requires IsDigit(c)
  {
    (c as int - '0' as int) as nat
  }

  /** str(n) for a non-negative integer. */
  function NatToString(n: nat): (r: string)
    ensures |r| > 0 && forall k | 0 <= k < |r| :: IsDigit(r[k])
  {
    if n < 10 then [DigitChar(n)] else NatToString(n / 10) + [DigitChar(n % 10)]
  }

  /** str(i), or an f-string hole holding i. */
  function IntToString(i: int): string {
    if i < 0 then "-" + NatToString(-i) else NatToString(i)
  }

  /** The digit strings int() accepts: ASCII digits, with single underscores
      allowed between two digits. */
  predicate GroupedDigits(s: string) {
    && |s| > 0 && IsDigit(s[0]) && IsDigit(s[|s| - 1])
    && (forall k | 0 <= k < |s| :: IsDigit(s[k]) || s[k] == '_')
    && (forall k | 0 <= k < |s| - 1 :: !(s[k] == '_' && s[k + 1] == '_'))
  }

  /** The number written by the digits of s, underscores ignored. */
  function DigitsValue(s: string): nat
    requires forall k | 0 <= k < |s| :: IsDigit(s[k]) || s[k] == '_'
  {
    if |s| == 0 then 0
    else if s[|s| - 1] == '_' then DigitsValue(s[..|s| - 1])
    else 10 * DigitsValue(s[..|s| - 1]) + DigitValue(s[|s| - 1])
  }

  function ParseUnsigned(s: string): Option<nat> {
    if GroupedDigits(s) then Some(DigitsValue(s)) else None
  }

  /** int(s) for a str argument: surrounding whitespace, an optional sign, then
      grouped ASCII digits; None where Python raises ValueError. */
  function ParseInt(s: string): Option<int> {
    var t := Strip(s);
    if |t| > 0 && (t[0] == '-' || t[0] == '+') then
      match ParseUnsigned(t[1..])
      case Some(v) => var x: int := if t[0] == '-' then -(v as int) else v; Some(x)
      case None => None
    else
      match ParseUnsigned(t)
      case Some(v) => Some(v)
      case None => None
  }

  lemma {:induction false} NatToStringValue(n: nat)
    ensures DigitsValue(NatToString(n)) == n
  {
    var r := NatToString(n);
    if n >= 10 {
      NatToStringValue(n / 10);
      assert r[..|r| - 1] == NatToString(n / 10);
      assert DigitValue(DigitChar(n % 10)) == n % 10;
    } else {
      assert DigitValue(DigitChar(n)) == n;
    }
  }

  lemma ParseUnsignedToString(n: nat)
    ensures ParseUnsigned(NatToString(n)) == Some(n)
  {
    NatToStringValue(n);
  }

  lemma StripIntToString(i: int)
    ensures Strip(IntToString(i)) == IntToString(i)
  {
    var s := IntToString(i);
    assert !IsSpace(s[0]) && !IsSpace(s[|s| - 1]);
    assert [] + s + [] == s;
    StripPadded([], s, []);
  }

  /** int(str(i)) == i. */
  lemma ParseIntToString(i: int)
    ensures ParseInt(IntToString(i)) == Some(i)
  {
    var s := IntToString(i);
    var m: nat := if i < 0 then -i else i;
    var d := NatToString(m);
    ParseUnsignedToString(m);
    StripIntToString(i);
    if i < 0 {
      assert s[1..] == d;
    }
  }

  /** Different integers print differently. */
  lemma IntToStringInjective(i: int, j: int)
    requires i != j
    ensures IntToString(i) != IntToString(j)
  {
    ParseIntToString(i);
    ParseIntToString(j);
  }

  function EndsWith(s: string, suffix: string): bool {
    |suffix| <= |s| && s[|s| - |suffix|..] == suffix
  }

  /** os.path.join(a, b) on POSIX. */
  function PathJoin(a: string, b: string): string {
    if |b| > 0 && b[0] == '/' then b
    else if |a| == 0 || a[|a| - 1] == '/' then a + b
    else a + "/" + b
  }

  /** A name built as prefix + hole + suffix determines its hole. */
  lemma AffixInjective(p: string, u: string, v: string, q: string)
    requires u != v
    ensures p + u + q != p + v + q
  {
    var x, y := p + u + q, p + v + q;
    assert x[|p|..|x| - |q|] == u;
    assert y[|p|..|y| - |q|] == v;
  }

  /** Joining one directory onto two names that start alike gives two
      paths that differ whenever the names do. */
  lemma PathJoinInjective(a: string, b: string, c: string)
    requires |b| > 0 && |c| > 0 && b[0] == c[0] && b != c
    ensures PathJoin(a, b) != PathJoin(a, c)
  {
    if b[0] != '/' {
      if |a| == 0 || a[|a| - 1] == '/' {
        assert (a + b)[|a|..] == b && (a + c)[|a|..] == c;
      } else {
        assert (a + "/" + b)[|a| + 1..] == b && (a + "/" + c)[|a| + 1..] == c;
      }
    }
  }

  /** os.path.basename(p) on POSIX: the part after the last '/'. */
  function Basename(p: string): (r: string)
    ensures '/' !in r
  {
    if |p| == 0 || p[|p| - 1] == '/' then ""
    else Basename(p[..|p| - 1]) + [p[|p| - 1]]
  }

  lemma {:induction false} BasenameAfterSlash(a: string, b: string)
    requires '/' !in b
    requires a == [] || a[|a| - 1] == '/'
    ensures Basename(a + b) == b
    decreases |b|
  {
    if |b| > 0 {
      var p := a + b;
      assert p[..|p| - 1] == a + b[..|b| - 1];
      BasenameAfterSlash(a, b[..|b| - 1]);
    } else {
      assert a + b == a;
    }
  }

  /** A name without '/' joined onto a directory is recovered by basename. */
  lemma BasenameOfJoin(dir: string, name: string)
    requires '/' !in name
    ensures Basename(PathJoin(dir, name)) == name
  {
    if |dir| == 0 || dir[|dir| - 1] == '/' {
      BasenameAfterSlash(dir, name);
    } else {
      assert dir + "/" + name == (dir + "/") + name;
      BasenameAfterSlash(dir + "/", name);
    }
  }
}
