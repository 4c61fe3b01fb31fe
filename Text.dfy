/**
 * The string operations of the CLR that the library relies on, stated on
 * `seq<char>`: `Char.IsWhiteSpace`, ordinal `IndexOf`/`Contains`, ordinal
 * `String.Replace`, `String.Join`, and ASCII case mapping.
 */
module Text {
  import opened Wrappers
  import opened Runtime

  /** `Char.IsWhiteSpace`: U+0009..U+000D, U+0085 and the Unicode separator characters. */
  predicate IsWhiteSpace(c: char) {
    || ('\t' <= c <= '\r') || c == ' ' || c == '\U{85}' || c == '\U{A0}' || c == '\U{1680}'
    || ('\U{2000}' <= c <= '\U{200A}') || c == '\U{2028}' || c == '\U{2029}'
    || c == '\U{202F}' || c == '\U{205F}' || c == '\U{3000}'
  }

  /** `string.IsNullOrWhiteSpace` of a non-null string: empty or white space only. */
  predicate IsBlank(s: string) {
    forall i :: 0 <= i < |s| ==> IsWhiteSpace(s[i])
  }

  /** The argument check shared by the ContentType and HttpMethod constructors. */
  function RequireNonBlank(s: Option<string>): Result<string, Exn> {
    if s.None? then Failure(ArgumentNull)
    else if IsBlank(s.value) then Failure(Argument)
    else Success(s.value)
  }

  // ---------------------------------------------------------------------------
  // Ordinal search and replacement

  /** `s` begins with `p`. */
  predicate StartsWith(s: string, p: string) {
    |p| <= |s| && s[..|p|] == p
  }

  /** `p` occurs in `s` starting at index `i`. */
  predicate OccursAt(s: string, p: string, i: int) {
    0 <= i && i + |p| <= |s| && s[i..i + |p|] == p
  }

  /** `s.IndexOf(p) > -1` with ordinal comparison. */
  predicate Contains(s: string, p: string) {
    exists i :: 0 <= i <= |s| - |p| && OccursAt(s, p, i)
  }

  /**
   * `s.Replace(p, v)`: every occurrence of `p`, found left to right without
   * overlap, is replaced by `v`. The CLR rejects an empty `p`.
   */
  function ReplaceAll(s: string, p: string, v: string): string
    requires |p| > 0
    decreases |s|
  {
    if |s| < |p| then s
    else if StartsWith(s, p) then v + ReplaceAll(s[|p|..], p, v)
    else [s[0]] + ReplaceAll(s[1..], p, v)
  }

  /** A string in which `p` does not occur is left as it is. */
  lemma {:induction false} ReplaceAbsent(s: string, p: string, v: string)
    requires |p| > 0 && !Contains(s, p)
    ensures ReplaceAll(s, p, v) == s
    decreases |s|
  {
    if |s| >= |p| {
      assert s[0..|p|] == s[..|p|];
      assert !OccursAt(s, p, 0);
      forall i | OccursAt(s[1..], p, i) ensures OccursAt(s, p, i + 1) {
        assert s[1..][i..i + |p|] == s[i + 1..i + 1 + |p|];
      }
      ReplaceAbsent(s[1..], p, v);
    }
  }

  /** Replacing a pattern by itself changes nothing. */
  lemma {:induction false} ReplaceSelf(s: string, p: string)
    requires |p| > 0
    ensures ReplaceAll(s, p, p) == s
    decreases |s|
  {
    if |s| >= |p| {
      if s[..|p|] == p {
        ReplaceSelf(s[|p|..], p);
        assert s == s[..|p|] + s[|p|..];
      } else {
        ReplaceSelf(s[1..], p);
        assert s == [s[0]] + s[1..];
      }
    }
  }

  /** Where no occurrence of `p` starts the string, replacement keeps its first character. */
  lemma ReplaceStep(s: string, p: string, v: string)
    requires |p| > 0 && |s| > 0 && !StartsWith(s, p)
    ensures ReplaceAll(s, p, v) == [s[0]] + ReplaceAll(s[1..], p, v)
  {
    if |s| < |p| {
      assert s == [s[0]] + s[1..];
    }
  }

  // ---------------------------------------------------------------------------
  // URI template placeholders

  /** A name without braces, so that `{name}` has braces only at its two ends. */
  predicate BraceFree(name: string) {
    '{' !in name && '}' !in name
  }

  /** The placeholder `{name}` that stands for a template parameter. */
  function Placeholder(name: string): (p: string)
    ensures |p| == |name| + 2 && p[0] == '{' && p[|p| - 1] == '}'
    ensures forall j :: 0 < j < |p| - 1 ==> p[j] == name[j - 1]
  {
    "{" + name + "}"
  }

  /** Only the first character of a placeholder is `{` and only the last is `}`. */
  lemma PlaceholderBraces(name: string, j: int)
    requires BraceFree(name) && 0 < j < |name| + 1
    ensures Placeholder(name)[j] != '{' && Placeholder(name)[j] != '}'
  {
    assert Placeholder(name)[j] == name[j - 1];
  }

  /** Every occurrence of a placeholder is replaced: `a{k}b` becomes `a'vb'`. */
  lemma {:induction false} ReplaceOccurrence(a: string, name: string, b: string, v: string)
    requires BraceFree(name)
    ensures ReplaceAll(a + (Placeholder(name) + b), Placeholder(name), v)
         == ReplaceAll(a, Placeholder(name), v) + (v + ReplaceAll(b, Placeholder(name), v))
    decreases |a|
  {
    var p := Placeholder(name);
    if |a| == 0 {
      ReplaceLeading(p, b, v);
      assert a + (p + b) == p + b;
    } else if StartsWith(a, p) {
      ReplaceOccurrence(a[|p|..], name, b, v);
      ReplaceSkip(a, p + b, p, v, v + ReplaceAll(b, p, v));
    } else {
      PlaceholderNotStraddled(a, name, b);
      ReplaceOccurrence(a[1..], name, b, v);
      ReplaceCons(a, p + b, p, v, v + ReplaceAll(b, p, v));
    }
  }

  /** Text without `{` in front of the rest is passed over: no placeholder starts in it. */
  lemma {:induction false} ReplaceKeepsLiteral(x: string, b: string, name: string, v: string)
    requires '{' !in x
    ensures ReplaceAll(x + b, Placeholder(name), v) == x + ReplaceAll(b, Placeholder(name), v)
    decreases |x|
  {
    if |x| > 0 {
      var p := Placeholder(name);
      assert (x + b)[0] == x[0] != p[0];
      ReplaceStep(x + b, p, v);
      assert (x + b)[1..] == x[1..] + b;
      ReplaceKeepsLiteral(x[1..], b, name, v);
      assert [x[0]] + x[1..] == x;
    } else {
      assert x + b == b;
    }
  }

  /** An occurrence at the start is replaced. */
  lemma ReplaceLeading(p: string, b: string, v: string)
    requires |p| > 0
    ensures ReplaceAll(p + b, p, v) == v + ReplaceAll(b, p, v)
  {
    assert (p + b)[..|p|] == p && (p + b)[|p|..] == b;
  }

  /** A placeholder that a string ends inside cannot start at the string's beginning. */
  lemma PlaceholderNotStraddled(a: string, name: string, b: string)
    requires BraceFree(name) && |a| > 0 && !StartsWith(a, Placeholder(name))
    ensures !StartsWith(a + (Placeholder(name) + b), Placeholder(name))
  {
    var p := Placeholder(name);
    var s := a + (p + b);
    if |a| < |p| {
      if |a| < |p| - 1 { PlaceholderBraces(name, |a|); }
      assert s[..|p|][|a|] == p[0] != p[|a|];
    } else {
      assert s[..|p|] == a[..|p|];
    }
  }

  /** Where an occurrence starts a string, its replacement is `v` and the remainder's. */
  lemma ReplaceSkip(a: string, m: string, p: string, v: string, rest: string)
    requires |p| > 0 && StartsWith(a, p)
    requires ReplaceAll(a[|p|..] + m, p, v) == ReplaceAll(a[|p|..], p, v) + rest
    ensures ReplaceAll(a + m, p, v) == ReplaceAll(a, p, v) + rest
  {
    assert (a + m)[..|p|] == a[..|p|];
    assert (a + m)[|p|..] == a[|p|..] + m;
  }

  /** Where no occurrence starts at its first character, a string's replacement is that character and the rest's. */
  lemma ReplaceCons(a: string, m: string, p: string, v: string, rest: string)
    requires |p| > 0 && |a| > 0 && !StartsWith(a, p) && !StartsWith(a + m, p)
    requires ReplaceAll(a[1..] + m, p, v) == ReplaceAll(a[1..], p, v) + rest
    ensures ReplaceAll(a + m, p, v) == ReplaceAll(a, p, v) + rest
  {
    ReplaceStep(a + m, p, v);
    ReplaceStep(a, p, v);
    assert (a + m)[1..] == a[1..] + m;
  }

  /** No placeholder starts inside, or at the start of, a different placeholder. */
  lemma PlaceholderNotAt(other: string, j: nat, b: string, name: string)
    requires BraceFree(name) && BraceFree(other) && name != other && j < |other| + 2
    ensures !StartsWith(Placeholder(other)[j..] + b, Placeholder(name))
  {
    var p, q := Placeholder(name), Placeholder(other);
    var s := q[j..] + b;
    if |s| >= |p| {
      if j > 0 {
        if j < |q| - 1 { PlaceholderBraces(other, j); }
        assert s[..|p|][0] == q[j] != p[0];
      } else if |p| > |q| {
        PlaceholderBraces(name, |q| - 1);
        assert s[..|p|][|q| - 1] == q[|q| - 1] != p[|q| - 1];
      } else if |p| < |q| {
        PlaceholderBraces(other, |p| - 1);
        assert s[..|p|][|p| - 1] == q[|p| - 1] != p[|p| - 1];
      } else {
        assert |name| == |other|;
        var k :| 0 <= k < |name| && name[k] != other[k];
        assert s[..|p|][k + 1] == q[k + 1] != p[k + 1];
      }
    }
  }

  /** Text at no position of which `p` starts is kept by the replacement. */
  lemma {:induction false} ReplaceKeepsPrefix(x: string, b: string, p: string, v: string)
    requires |p| > 0
    requires forall k :: 0 <= k < |x| ==> !StartsWith(x[k..] + b, p)
    ensures ReplaceAll(x + b, p, v) == x + ReplaceAll(b, p, v)
    decreases |x|
  {
    if |x| == 0 {
      assert x + b == b;
    } else {
      assert x[0..] == x;
      ReplaceStep(x + b, p, v);
      assert (x + b)[1..] == x[1..] + b;
      forall k | 0 <= k < |x[1..]| ensures !StartsWith(x[1..][k..] + b, p) {
        assert x[1..][k..] == x[k + 1..];
      }
      ReplaceKeepsPrefix(x[1..], b, p, v);
      assert [x[0]] + x[1..] == x;
    }
  }

  /** A different placeholder, and whatever follows it, is kept by the replacement. */
  lemma ReplaceKeepsTail(other: string, j: nat, b: string, name: string, v: string)
    requires BraceFree(name) && BraceFree(other) && name != other && j <= |other| + 2
    ensures ReplaceAll(Placeholder(other)[j..] + b, Placeholder(name), v)
         == Placeholder(other)[j..] + ReplaceAll(b, Placeholder(name), v)
  {
    var p, x := Placeholder(name), Placeholder(other)[j..];
    forall k | 0 <= k < |x| ensures !StartsWith(x[k..] + b, p) {
      assert x[k..] == Placeholder(other)[j + k..];
      PlaceholderNotAt(other, j + k, b, name);
    }
    ReplaceKeepsPrefix(x, b, p, v);
  }

  /** Replacing one placeholder leaves an occurrence of a different placeholder intact. */
  lemma {:induction false} ReplaceKeepsOther(a: string, other: string, b: string, name: string, v: string)
    requires BraceFree(name) && BraceFree(other) && name != other
    ensures ReplaceAll(a + (Placeholder(other) + b), Placeholder(name), v)
         == ReplaceAll(a, Placeholder(name), v) + (Placeholder(other) + ReplaceAll(b, Placeholder(name), v))
    decreases |a|
  {
    var p, q := Placeholder(name), Placeholder(other);
    if |a| == 0 {
      assert q[0..] == q && a + (q + b) == q[0..] + b;
      ReplaceKeepsTail(other, 0, b, name, v);
    } else if StartsWith(a, p) {
      ReplaceKeepsOther(a[|p|..], other, b, name, v);
      ReplaceSkip(a, q + b, p, v, q + ReplaceAll(b, p, v));
    } else {
      OtherNotStraddled(a, other, b, name);
      ReplaceKeepsOther(a[1..], other, b, name, v);
      ReplaceCons(a, q + b, p, v, q + ReplaceAll(b, p, v));
    }
  }

  /** A placeholder that a string ends inside cannot start where another placeholder follows. */
  lemma OtherNotStraddled(a: string, other: string, b: string, name: string)
    requires BraceFree(name) && BraceFree(other) && |a| > 0 && !StartsWith(a, Placeholder(name))
    ensures !StartsWith(a + (Placeholder(other) + b), Placeholder(name))
  {
    var p, q := Placeholder(name), Placeholder(other);
    var s := a + (q + b);
    if |a| < |p| {
      if |s| >= |p| {
        if |a| < |p| - 1 { PlaceholderBraces(name, |a|); }
        assert s[..|p|][|a|] == q[0] != p[|a|];
      }
    } else {
      assert s[..|p|] == a[..|p|];
    }
  }

  // ---------------------------------------------------------------------------
  // Joining and splitting

  /** `string.Join(sep, parts)`. */
  function Join(parts: seq<string>, sep: string): string {
    if |parts| == 0 then ""
    else if |parts| == 1 then parts[0]
    else parts[0] + sep + Join(parts[1..], sep)
  }

  /** Splitting at every `c`, the inverse of joining with `c` (see SplitJoin). */
  function SplitOn(s: string, c: char): (r: seq<string>)
    ensures |r| >= 1
  {
    if |s| == 0 then [""]
    else if s[0] == c then [""] + SplitOn(s[1..], c)
    else var rest := SplitOn(s[1..], c); [[s[0]] + rest[0]] + rest[1..]
  }

  lemma {:induction false} SplitWithout(x: string, c: char)
    requires c !in x
    ensures SplitOn(x, c) == [x]
  {
    if |x| > 0 {
      SplitWithout(x[1..], c);
      assert x == [x[0]] + x[1..];
    }
  }

  lemma {:induction false} SplitAfterFirst(x: string, c: char, y: string)
    requires c !in x
    ensures SplitOn(x + [c] + y, c) == [x] + SplitOn(y, c)
  {
    if |x| == 0 {
      assert (x + [c] + y)[1..] == y;
    } else {
      SplitAfterFirst(x[1..], c, y);
      assert (x + [c] + y)[1..] == x[1..] + [c] + y;
      assert x == [x[0]] + x[1..];
    }
  }

  /** Splitting text made of two pieces around a separator splits each piece. */
  lemma SplitHead(s: string, c: char)
    requires |s| > 0
    ensures SplitOn(s, c)
         == if s[0] == c then [""] + SplitOn(s[1..], c) else [[s[0]] + SplitOn(s[1..], c)[0]] + SplitOn(s[1..], c)[1..]
  {
  }

  lemma SplitConsAppend(h: char, pre: seq<string>, post: seq<string>)
    requires |pre| >= 1
    ensures [[h] + (pre + post)[0]] + (pre + post)[1..] == ([[h] + pre[0]] + pre[1..]) + post
  {
    assert (pre + post)[0] == pre[0] && (pre + post)[1..] == pre[1..] + post;
  }

  lemma DropFirstOfAppend(x: string, y: string)
    requires |x| > 0
    ensures (x + y)[0] == x[0] && (x + y)[1..] == x[1..] + y
  {
  }

  /** Splitting text made of two pieces around a separator splits each piece. */
  lemma {:induction false} SplitAppend(x: string, c: char, y: string)
    ensures SplitOn(x + ([c] + y), c) == SplitOn(x, c) + SplitOn(y, c)
  {
    var cy := [c] + y;
    if |x| == 0 {
      assert x + cy == cy;
      DropFirstOfAppend([c], y);
      SplitHead(cy, c);
    } else {
      var t := x[1..];
      SplitAppend(t, c, y);
      DropFirstOfAppend(x, cy);
      SplitHead(x + cy, c);
      SplitHead(x, c);
      if x[0] != c {
        SplitConsAppend(x[0], SplitOn(t, c), SplitOn(y, c));
      }
    }
  }

  /** Splitting a join at a separator that occurs in no part gives the parts back. */
  lemma {:induction false} SplitJoin(parts: seq<string>, c: char)
    requires |parts| >= 1
    requires forall i :: 0 <= i < |parts| ==> c !in parts[i]
    ensures SplitOn(Join(parts, [c]), c) == parts
  {
    if |parts| == 1 {
      SplitWithout(parts[0], c);
    } else {
      SplitJoin(parts[1..], c);
      SplitAfterFirst(parts[0], c, Join(parts[1..], [c]));
      assert parts == [parts[0]] + parts[1..];
    }
  }

  /** The first part is a prefix of the join. */
  lemma JoinStartsWithFirst(parts: seq<string>, sep: string)
    requires |parts| >= 1
    ensures |parts[0]| <= |Join(parts, sep)| && Join(parts, sep)[..|parts[0]|] == parts[0]
  {
    if |parts| > 1 {
      assert Join(parts, sep) == parts[0] + (sep + Join(parts[1..], sep));
    }
  }

  /** A join with one more part. */
  lemma {:induction false} JoinSnoc(parts: seq<string>, last: string, sep: string)
    requires |parts| >= 1
    ensures Join(parts + [last], sep) == Join(parts, sep) + sep + last
  {
    if |parts| > 1 {
      JoinSnoc(parts[1..], last, sep);
      assert (parts + [last])[1..] == parts[1..] + [last];
    }
  }

  // ---------------------------------------------------------------------------
  // Single-character search

  /** `s.IndexOf(c)`: the first index of `c`, or -1. */
  function IndexOf(s: string, c: char): (r: int)
    ensures -1 <= r < |s|
    ensures r == -1 <==> c !in s
    ensures 0 <= r ==> s[r] == c && c !in s[..r]
  {
    if |s| == 0 then -1
    else if s[0] == c then 0
    else
      var r := IndexOf(s[1..], c);
      if r == -1 then -1
      else assert s[..r + 1] == [s[0]] + s[1..][..r]; r + 1
  }

  /** `s.Substring(0, s.IndexOf(c))` when `c` occurs, `s` otherwise. */
  function PrefixBefore(s: string, c: char): string {
    var i := IndexOf(s, c);
    if i > -1 then s[..i] else s
  }

  // ---------------------------------------------------------------------------
  // ASCII case mapping

  /** The lower-case form of an ASCII letter; other characters are kept. */
  function AsciiLower(c: char): char {
    if 'A' <= c <= 'Z' then (c as int + 32) as char else c
  }

  function AsciiLowerString(s: string): string {
    seq(|s|, i requires 0 <= i < |s| => AsciiLower(s[i]))
  }

  /** Ordinal comparison ignoring ASCII case. */
  predicate EqualsIgnoreCase(a: string, b: string) {
    |a| == |b| && forall i :: 0 <= i < |a| ==> AsciiLower(a[i]) == AsciiLower(b[i])
  }
}
