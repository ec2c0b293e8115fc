/** Character classes and string primitives of JavaScript, as the program uses them. */
module Text {

  /** JavaScript's `\s`: every WhiteSpace and LineTerminator code point.
      String.prototype.trim removes exactly the same set. */
  predicate IsSpace(c: char) {
    || c == ' ' || c == '\t' || c == '\n' || c == '\U{000B}' || c == '\U{000C}' || c == '\r'
    || c == '\U{00A0}' || c == '\U{1680}' || ('\U{2000}' <= c <= '\U{200A}')
    || c == '\U{2028}' || c == '\U{2029}' || c == '\U{202F}' || c == '\U{205F}'
    || c == '\U{3000}' || c == '\U{FEFF}'
  }

  /** The characters a regular-expression `.` does not match (no `s` flag). */
  predicate IsLineTerminator(c: char) {
    c == '\n' || c == '\r' || c == '\U{2028}' || c == '\U{2029}'
  }

  predicate IsAsciiLetter(c: char) {
    ('a' <= c <= 'z') || ('A' <= c <= 'Z')
  }

  /** `s.startsWith(p)` */
  predicate StartsWith(s: string, p: string) {
    |p| <= |s| && s[..|p|] == p
  }

  /** `s.includes(p)`, by recursion on the start position. */
  predicate Includes(s: string, p: string)
    decreases |s|
  {
    StartsWith(s, p) || (s != [] && Includes(s[1..], p))
  }

  /** No line terminator anywhere in `s`: a `.` run can cover it. */
  predicate OnOneLine(s: string) {
    forall k :: 0 <= k < |s| ==> !IsLineTerminator(s[k])
  }

  predicate AllSpace(s: string) {
    forall k :: 0 <= k < |s| ==> IsSpace(s[k])
  }

  /** `s.includes(p)` holds exactly when `p` starts at some position of `s`. */
  lemma {:induction false} IncludesAt(s: string, p: string)
    ensures Includes(s, p) <==> exists k :: 0 <= k <= |s| && StartsWith(s[k..], p)
    decreases |s|
  {
    if StartsWith(s, p) {
      assert s[0..] == s;
    } else if s == [] {
    } else {
      IncludesAt(s[1..], p);
      if Includes(s, p) {
        var k :| 0 <= k <= |s[1..]| && StartsWith(s[1..][k..], p);
        assert s[1..][k..] == s[k + 1..];
      } else {
        forall k | 0 <= k <= |s| ensures !StartsWith(s[k..], p) {
          if k > 0 {
            assert s[1..][k - 1..] == s[k..];
          } else {
            assert s[0..] == s;
          }
        }
      }
    }
  }

  /** A text cannot contain a pattern longer than itself, nor a character it lacks. */
  lemma {:induction false} IncludesCharOnly(s: string, c: char)
    ensures Includes(s, [c]) <==> c in s
    decreases |s|
  {
    if s != [] {
      IncludesCharOnly(s[1..], c);
      assert c in s <==> s[0] == c || c in s[1..];
    }
  }

  /** A pattern whose first character `s` lacks does not occur in `s`. */
  lemma IncludesNeedsFirst(s: string, p: string)
    requires p != [] && p[0] !in s
    ensures !Includes(s, p)
  {
    IncludesAt(s, p);
    forall k | 0 <= k <= |s| ensures !StartsWith(s[k..], p) {
      if k < |s| {
        assert s[k..][0] == s[k];
      }
    }
  }

  /** If `p` occurs in a part of `s`, it occurs in `s`. */
  lemma {:induction false} IncludesWithin(s: string, i: nat, j: nat, p: string)
    requires i <= j <= |s|
    requires Includes(s[i..j], p)
    ensures Includes(s, p)
  {
    IncludesAt(s[i..j], p);
    var k :| 0 <= k <= |s[i..j]| && StartsWith(s[i..j][k..], p);
    assert s[i..j][k..] == s[i + k..j];
    assert s[i + k..][..|p|] == s[i + k..j][..|p|];
    IncludesAt(s, p);
  }

  /** If `p` does not occur in `s`, it does not occur in any suffix of `s`. */
  lemma ExcludedFromSuffix(s: string, i: nat, p: string)
    requires i <= |s| && !Includes(s, p)
    ensures !Includes(s[i..], p)
  {
    assert s[i..|s|] == s[i..];
    if Includes(s[i..], p) {
      IncludesWithin(s, i, |s|, p);
    }
  }

  /** A pattern that `n` does not include, and that lacks the first character of `tail`,
      does not start anywhere in `n` when `tail` follows it. */
  lemma {:induction false} NoStartAcross(n: string, tail: string, p: string, k: nat)
    requires k <= |n| && p != [] && tail != [] && tail[0] !in p && !Includes(n, p)
    ensures !StartsWith((n + tail)[k..], p)
  {
    if StartsWith((n + tail)[k..], p) {
      if k + |p| <= |n| {
        assert n[k..][..|p|] == (n + tail)[k..][..|p|];
        IncludesAt(n, p);
      } else {
        AcrossAt(n, tail, p, k);
      }
    }
  }

  /** A pattern that starts in `n` and runs past its end holds the first character of `tail`. */
  lemma AcrossAt(n: string, tail: string, p: string, k: nat)
    requires k <= |n| < k + |p| && tail != [] && StartsWith((n + tail)[k..], p)
    ensures tail[0] in p
  {
    var i := |n| - k;
    assert (n + tail)[k..][i] == tail[0];
    assert p[i] == (n + tail)[k..][i];
  }

  /** Concatenation regrouped to the right. */
  lemma Regroup(a: string, b: string, c: string, x: string)
    ensures a + b + c + x == a + (b + (c + x))
  {
  }

  /** A suffix that starts inside the middle part `o` of `x + o + c + rest`. */
  lemma CharInFront(x: string, o: string, c: string, rest: string, k: nat)
    requires k < |x|
    ensures (x + o + c + rest)[k] == x[k]
  {
  }

  lemma SuffixInside(x: string, o: string, c: string, rest: string, k: nat)
    requires |x| <= k <= |x| + |o|
    ensures (x + o + c + rest)[k..] == o[k - |x|..] + c + rest
  {
    var g := o[k - |x|..];
    assert x + o + c + rest == x + (o + (c + rest));
    assert (x + (o + (c + rest)))[k..] == (o + (c + rest))[k - |x|..];
    assert (o + (c + rest))[k - |x|..] == g + (c + rest);
    assert g + (c + rest) == g + c + rest;
  }

  /** What a part includes, the whole includes. */
  lemma IncludesAfter(a: string, b: string, p: string)
    requires Includes(b, p)
    ensures Includes(a + b, p)
  {
    assert (a + b)[|a|..|a + b|] == b;
    IncludesWithin(a + b, |a|, |a + b|, p);
  }

  lemma IncludesBefore(a: string, b: string, p: string)
    requires Includes(a, p)
    ensures Includes(a + b, p)
  {
    assert (a + b)[0..|a|] == a;
    IncludesWithin(a + b, 0, |a|, p);
  }

  /** An occurrence at a known position. */
  lemma IncludesFrom(s: string, k: nat, p: string)
    requires k <= |s| && StartsWith(s[k..], p)
    ensures Includes(s, p)
  {
    IncludesAt(s, p);
  }

  /** An occurrence in the middle part of `a + g + b`. */
  lemma IncludesMiddle(a: string, g: string, b: string, j: nat, p: string)
    requires j <= |g| && StartsWith(g[j..], p)
    ensures Includes(a + g + b, p)
  {
    IncludesFrom(g, j, p);
    IncludesAfter(a, g, p);
    IncludesBefore(a + g, b, p);
  }

  /** A text starts with each of its prefixes, and with every prefix of those. */
  lemma StartsWithAppend(a: string, b: string, p: string)
    requires StartsWith(a, p)
    ensures StartsWith(a + b, p)
  {
    assert (a + b)[..|p|] == a[..|p|];
  }

  /** ASCII `toLowerCase` (letters A-Z only; every other character is kept). */
  function LowerChar(c: char): (r: char)
    ensures IsAsciiLetter(c) ==> 'a' <= r <= 'z'
    ensures !('A' <= c <= 'Z') ==> r == c
  {
    if 'A' <= c <= 'Z' then (c as int + 32) as char else c
  }

  function Lower(s: string): (r: string)
    ensures |r| == |s|
    ensures forall k :: 0 <= k < |s| ==> r[k] == LowerChar(s[k])
  {
    if s == [] then [] else [LowerChar(s[0])] + Lower(s[1..])
  }

  /** `s.toLowerCase().includes(word.toLowerCase())`: `s` contains `word`, ignoring case. */
  predicate Mentions(s: string, word: string) {
    Includes(Lower(s), Lower(word))
  }

  /** `s.trim()` is empty exactly when `s` is all whitespace. */
  lemma TrimBlank(s: string)
    ensures Trim(s) == [] <==> AllSpace(s)
  {
    var i := LeadingSpaces(s);
    if i == |s| {
      assert s[..i] == s;
    } else {
      assert s[i..][..|s[i..]| - TrailingSpaces(s[i..])] != [] by {
        assert !IsSpace(s[i..][0]);
      }
    }
  }

  /** Number of leading characters of `s` that are `\s` whitespace. */
  function LeadingSpaces(s: string): (n: nat)
    ensures n <= |s|
    ensures AllSpace(s[..n])
    ensures n < |s| ==> !IsSpace(s[n])
  {
    if s != [] && IsSpace(s[0]) then 1 + LeadingSpaces(s[1..]) else 0
  }

  /** Number of trailing characters of `s` that are `\s` whitespace. */
  function TrailingSpaces(s: string): (n: nat)
    ensures n <= |s|
    ensures AllSpace(s[|s| - n..])
    ensures n < |s| ==> !IsSpace(s[|s| - n - 1])
  {
    if s != [] && IsSpace(s[|s| - 1]) then 1 + TrailingSpaces(s[..|s| - 1]) else 0
  }

  /** `s.trim()` */
  function Trim(s: string): (r: string)
    ensures r != [] ==> !IsSpace(r[0]) && !IsSpace(r[|r| - 1])
    ensures exists i, j :: 0 <= i <= j <= |s| && r == s[i..j] && AllSpace(s[..i]) && AllSpace(s[j..])
  {
    var i := LeadingSpaces(s);
    var rest := s[i..];
    var n := TrailingSpaces(rest);
    assert s[i..][..|rest| - n] == s[i..i + |rest| - n];
    assert s[i + |rest| - n..] == rest[|rest| - n..];
    rest[..|rest| - n]
  }

  /** `s.split(sep)` for a one-character separator: the pieces in order, separators dropped. */
  function Split(s: string, sep: char): (parts: seq<string>)
    ensures |parts| >= 1
    ensures forall k :: 0 <= k < |parts| ==> sep !in parts[k]
    decreases |s|
  {
    if sep !in s then [s]
    else
      var k := FirstIndex(s, sep);
      [s[..k]] + Split(s[k + 1..], sep)
  }

  /** Position of the first occurrence of `c` in `s`. */
  function FirstIndex(s: string, c: char): (k: nat)
    requires c in s
    ensures k < |s| && s[k] == c && c !in s[..k]
  {
    if s[0] == c then 0 else 1 + FirstIndex(s[1..], c)
  }

  /** Joining the pieces of a split with the separator gives the text back. */
  function Join(parts: seq<string>, sep: string): string {
    if parts == [] then ""
    else if |parts| == 1 then parts[0]
    else parts[0] + sep + Join(parts[1..], sep)
  }

  lemma {:induction false} SplitJoin(s: string, sep: char)
    ensures Join(Split(s, sep), [sep]) == s
    decreases |s|
  {
    if sep in s {
      var k := FirstIndex(s, sep);
      var parts := [s[..k]] + Split(s[k + 1..], sep);
      assert parts[1..] == Split(s[k + 1..], sep);
      assert Join(parts, [sep]) == s[..k] + [sep] + Join(Split(s[k + 1..], sep), [sep]);
      SplitJoin(s[k + 1..], sep);
      assert s == s[..k] + [sep] + s[k + 1..];
    }
  }

  /** `s.length`: UTF-16 code units, two for a character beyond the Basic Multilingual Plane. */
  function Utf16Length(s: string): (n: nat)
    ensures |s| <= n <= 2 * |s|
  {
    if s == [] then 0 else (if s[0] as int > 0xFFFF then 2 else 1) + Utf16Length(s[1..])
  }
}
