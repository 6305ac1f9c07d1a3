/**
 * The string operations the source takes from JavaScript: `trim()`, the `\s` class of its
 * regular expressions, `split(',')` and `join(sep)`. Strings are sequences of Unicode scalar values.
 */
module Text {

  /**
   * ECMAScript's WhiteSpace and LineTerminator code points: the characters `trim()` removes and
   * the regular-expression class `\s` matches.
   */
  predicate IsWhitespace(c: char) {
    || c == '\t' || c == '\n' || c == '\U{000B}' || c == '\U{000C}' || c == '\r' || c == ' '
    || c == '\U{00A0}' || c == '\U{1680}' || ('\U{2000}' <= c <= '\U{200A}')
    || c == '\U{2028}' || c == '\U{2029}' || c == '\U{202F}' || c == '\U{205F}'
    || c == '\U{3000}' || c == '\U{FEFF}'
  }

  /** Every character is whitespace (the empty string included). */
  predicate Blank(s: string) {
    forall i | 0 <= i < |s| :: IsWhitespace(s[i])
  }

  /** Neither the first nor the last character is whitespace. */
  predicate Trimmed(s: string) {
    s == [] || (!IsWhitespace(s[0]) && !IsWhitespace(s[|s| - 1]))
  }

  /**
   * `s.trim()`: drops whitespace from both ends, one character at a time, the front first.
   * The result is the longest middle part of s whose ends are not whitespace.
   */
  function Trim(s: string): (r: string)
    ensures |r| <= |s| && Trimmed(r)
  {
    if s != [] && IsWhitespace(s[0]) then Trim(s[1..])
    else if s != [] && IsWhitespace(s[|s| - 1]) then Trim(s[..|s| - 1])
    else s
  }

  /** A string trims to the empty string exactly when it is blank (`!s.trim()` in the source). */
  lemma {:induction false} TrimEmptyIffBlank(s: string)
    ensures Trim(s) == [] <==> Blank(s)
  {
    if s != [] && IsWhitespace(s[0]) {
      TrimEmptyIffBlank(s[1..]);
      assert forall i | 1 <= i < |s| :: s[i] == s[1..][i - 1];
    } else if s != [] && IsWhitespace(s[|s| - 1]) {
      TrimEmptyIffBlank(s[..|s| - 1]);
      assert !Blank(s[..|s| - 1]) by {
        assert s[..|s| - 1][0] == s[0];
      }
    }
  }

  /** A middle slice of s[1..] with blank ends is one of s too, when s starts with whitespace. */
  lemma MiddleAfterFront(s: string, i: nat, j: nat)
    requires s != [] && IsWhitespace(s[0]) && i <= j <= |s| - 1
    requires Blank(s[1..][..i]) && Blank(s[1..][j..])
    ensures s[1..][i..j] == s[i + 1..j + 1] && Blank(s[..i + 1]) && Blank(s[j + 1..])
  {
    var u, v := s[..i + 1], s[1..][..i];
    forall k | 0 <= k < |u| ensures IsWhitespace(u[k]) {
      if k > 0 {
        assert u[k] == v[k - 1];
      }
    }
    assert s[j + 1..] == s[1..][j..];
  }

  /** A middle slice of s[..|s| - 1] with blank ends is one of s too, when s ends with whitespace. */
  lemma MiddleBeforeBack(s: string, i: nat, j: nat)
    requires s != [] && IsWhitespace(s[|s| - 1]) && i <= j <= |s| - 1
    requires Blank(s[..|s| - 1][..i]) && Blank(s[..|s| - 1][j..])
    ensures s[..|s| - 1][i..j] == s[i..j] && Blank(s[..i]) && Blank(s[j..])
  {
    var u, v := s[j..], s[..|s| - 1][j..];
    forall k | 0 <= k < |u| ensures IsWhitespace(u[k]) {
      if k < |v| {
        assert u[k] == v[k];
      }
    }
    assert s[..|s| - 1][..i] == s[..i];
  }

  /**
   * Trimming only cuts blank runs off the two ends: the result is a middle slice of s with
   * whitespace alone before and after it. With `Trimmed` this fixes the result.
   */
  lemma {:induction false} TrimIsMiddle(s: string)
    ensures exists i, j | 0 <= i <= j <= |s| :: Trim(s) == s[i..j] && Blank(s[..i]) && Blank(s[j..])
  {
    if s != [] && IsWhitespace(s[0]) {
      TrimIsMiddle(s[1..]);
      var i, j :| 0 <= i <= j <= |s[1..]| && Trim(s[1..]) == s[1..][i..j] && Blank(s[1..][..i]) && Blank(s[1..][j..]);
      MiddleAfterFront(s, i, j);
    } else if s != [] && IsWhitespace(s[|s| - 1]) {
      TrimIsMiddle(s[..|s| - 1]);
      var i, j :| 0 <= i <= j <= |s[..|s| - 1]| && Trim(s[..|s| - 1]) == s[..|s| - 1][i..j]
        && Blank(s[..|s| - 1][..i]) && Blank(s[..|s| - 1][j..]);
      MiddleBeforeBack(s, i, j);
    } else {
      assert Trim(s) == s[0..|s|] && Blank(s[..0]) && Blank(s[|s|..]);
    }
  }

  /** Trimming introduces no character that was not there. */
  lemma {:induction false} TrimKeepsAbsent(s: string, c: char)
    requires c !in s
    ensures c !in Trim(s)
  {
    if s != [] && IsWhitespace(s[0]) {
      assert c !in s[1..];
      TrimKeepsAbsent(s[1..], c);
    } else if s != [] && IsWhitespace(s[|s| - 1]) {
      assert c !in s[..|s| - 1];
      TrimKeepsAbsent(s[..|s| - 1], c);
    }
  }

  /** Trimming leaves an already trimmed string alone. */
  lemma TrimTrimmed(s: string)
    requires Trimmed(s)
    ensures Trim(s) == s
  {
  }

  /** Blank characters in front of a string do not survive trimming. */
  lemma {:induction false} TrimBlankPrefix(p: string, t: string)
    requires Blank(p)
    ensures Trim(p + t) == Trim(t)
  {
    if p != [] {
      assert (p + t)[1..] == p[1..] + t;
      TrimBlankPrefix(p[1..], t);
    } else {
      assert p + t == t;
    }
  }

  /** `s.split([d])`: the maximal d-free pieces of s, in order; never empty. */
  function Split(s: string, d: char): (r: seq<string>)
    ensures |r| >= 1
    ensures forall i | 0 <= i < |r| :: d !in r[i]
    ensures forall i, j | 0 <= i < |r| && 0 <= j < |r[i]| :: r[i][j] in s
  {
    if s == [] then [""]
    else
      var rest := Split(s[1..], d);
      if s[0] == d then [""] + rest
      else [[s[0]] + rest[0]] + rest[1..]
  }

  /** `parts.join(sep)`. */
  function Join(parts: seq<string>, sep: string): string {
    if |parts| == 0 then ""
    else if |parts| == 1 then parts[0]
    else parts[0] + sep + Join(parts[1..], sep)
  }

  /** A string without the delimiter splits into itself alone. */
  lemma {:induction false} SplitNoDelimiter(s: string, d: char)
    requires d !in s
    ensures Split(s, d) == [s]
  {
    if s != [] {
      SplitNoDelimiter(s[1..], d);
      assert [s[0]] + s[1..] == s;
    }
  }

  /** Splitting around one delimiter occurrence splits each side separately. */
  lemma {:induction false} SplitAround(a: string, b: string, d: char)
    ensures Split(a + [d] + b, d) == Split(a, d) + Split(b, d)
  {
    if a == [] {
      assert a + [d] + b == [d] + b;
      assert ([d] + b)[1..] == b;
    } else {
      var s := a + [d] + b;
      assert s[0] == a[0] && s[1..] == a[1..] + [d] + b;
      SplitAround(a[1..], b, d);
      var ra := Split(a[1..], d);
      if a[0] != d {
        assert Split(a, d) == [[a[0]] + ra[0]] + ra[1..];
        assert (ra + Split(b, d))[0] == ra[0];
        assert (ra + Split(b, d))[1..] == ra[1..] + Split(b, d);
      }
    }
  }

  /** Splitting undoes joining with the same delimiter, the lossless direction. */
  lemma {:induction false} JoinSplit(s: string, d: char)
    ensures Join(Split(s, d), [d]) == s
  {
    if s != [] {
      JoinSplit(s[1..], d);
      var rest := Split(s[1..], d);
      if s[0] == d {
        assert Split(s, d) == [""] + rest;
        assert ([""] + rest)[1..] == rest;
        assert [d] + s[1..] == s;
      } else {
        var r := Split(s, d);
        assert r == [[s[0]] + rest[0]] + rest[1..];
        if |rest| == 1 {
          assert [s[0]] + s[1..] == s;
        } else {
          assert r[1..] == rest[1..];
          assert Join(rest, [d]) == rest[0] + [d] + Join(rest[1..], [d]);
          assert [s[0]] + s[1..] == s;
        }
      }
    }
  }

  /** a occurs in s as a contiguous factor. */
  ghost predicate IsFactor(a: string, s: string) {
    exists k :: FactorAt(a, s, k)
  }

  /** a occurs in s starting at position k. */
  predicate FactorAt(a: string, s: string, k: int) {
    0 <= k <= |s| - |a| && s[k..k + |a|] == a
  }

  /** The second part of a concatenation occurs in it right after the first. */
  lemma FactorAtEnd(a: string, b: string)
    ensures FactorAt(b, a + b, |a|)
  {
    assert (a + b)[|a|..|a| + |b|] == b;
  }

  /** The first part of a concatenation occurs at its start. */
  lemma FactorAtStart(a: string, b: string)
    ensures FactorAt(a, a + b, 0)
  {
    assert (a + b)[..|a|] == a;
  }

  /** Appending to a string keeps each factor where it was. */
  lemma FactorExtend(a: string, s: string, k: int, t: string)
    requires FactorAt(a, s, k)
    ensures FactorAt(a, s + t, k)
  {
    assert (s + t)[k..k + |a|] == s[k..k + |a|];
  }

  /** What is spliced between a prefix and a suffix occurs in the result. */
  lemma FactorOfConcat(pre: string, a: string, post: string)
    ensures IsFactor(a, pre + a + post)
  {
    var s := pre + a + post;
    assert FactorAt(a, s, |pre|);
  }

  /** A factor of a factor is a factor. */
  lemma FactorTransitive(a: string, b: string, s: string)
    requires IsFactor(a, b) && IsFactor(b, s)
    ensures IsFactor(a, s)
  {
    var k :| FactorAt(a, b, k);
    var m :| FactorAt(b, s, m);
    assert b == s[m..m + |b|];
    assert forall i | 0 <= i < |a| :: s[m + k + i] == b[k + i] == a[i];
    assert s[m + k..m + k + |a|] == a;
    assert FactorAt(a, s, m + k);
  }

  /** Every part of a join occurs in it as a factor. */
  lemma {:induction false} PartIsFactorOfJoin(parts: seq<string>, sep: string, i: nat)
    requires i < |parts|
    ensures IsFactor(parts[i], Join(parts, sep))
  {
    if |parts| == 1 {
      FactorOfConcat("", parts[0], "");
      assert "" + parts[0] + "" == parts[0];
    } else if i == 0 {
      FactorOfConcat("", parts[0], sep + Join(parts[1..], sep));
      assert "" + parts[0] + (sep + Join(parts[1..], sep)) == Join(parts, sep);
    } else {
      PartIsFactorOfJoin(parts[1..], sep, i - 1);
      FactorOfConcat(parts[0] + sep, Join(parts[1..], sep), "");
      assert parts[0] + sep + Join(parts[1..], sep) + "" == Join(parts, sep);
      FactorTransitive(parts[i], Join(parts[1..], sep), Join(parts, sep));
    }
  }
}
