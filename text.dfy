/**
 * The operations of Rust's `str` that the core uses (`trim`, `trim_matches`,
 * `trim_end_matches`, `join`), on `seq<char>`.
 */
module Text {

  /** Rust's `char::is_whitespace`: the characters with the Unicode White_Space property. */
  predicate IsWhitespace(c: char) {
    var n := c as int;
    (0x09 <= n <= 0x0D) || n == 0x20 || n == 0x85 || n == 0xA0 || n == 0x1680
    || (0x2000 <= n <= 0x200A) || n == 0x2028 || n == 0x2029 || n == 0x202F
    || n == 0x205F || n == 0x3000
  }

  /** Every character of `s` satisfies `p`. */
  predicate All(s: string, p: char -> bool) {
    forall k :: 0 <= k < |s| ==> p(s[k])
  }

  /** `r` occurs in `s` as a contiguous run of characters. */
  ghost predicate IsSubstring(r: string, s: string) {
    exists i, j :: 0 <= i <= j <= |s| && r == s[i..j]
  }

  lemma SubstringTransitive(a: string, b: string, c: string)
    requires IsSubstring(a, b) && IsSubstring(b, c)
    ensures IsSubstring(a, c)
  {
    var i, j :| 0 <= i <= j <= |b| && a == b[i..j];
    var k, l :| 0 <= k <= l <= |c| && b == c[k..l];
    assert |b| == l - k;
    forall t | 0 <= t < j - i ensures a[t] == c[k + i + t] {
      assert a[t] == b[i + t];
    }
    assert a == c[k + i..k + j];
  }

  lemma SubstringExcludes(r: string, s: string, c: char)
    requires IsSubstring(r, s) && c !in s
    ensures c !in r
  {
    var i, j :| 0 <= i <= j <= |s| && r == s[i..j];
    forall k | 0 <= k < |r| ensures r[k] != c {
      assert r[k] == s[i + k];
    }
  }

  /** `trim_start_matches(p)`: drops the longest prefix whose characters all satisfy `p`. */
  function TrimStartWhile(s: string, p: char -> bool): string {
    if |s| > 0 && p(s[0]) then TrimStartWhile(s[1..], p) else s
  }

  /** `trim_end_matches(p)`: drops the longest suffix whose characters all satisfy `p`. */
  function TrimEndWhile(s: string, p: char -> bool): string {
    if |s| > 0 && p(s[|s| - 1]) then TrimEndWhile(s[..|s| - 1], p) else s
  }

  /**
   * What `trim_start_matches` keeps is a suffix of its input that does not start with `p`,
   * and what it drops all satisfies `p`.
   */
  lemma {:induction false} TrimStartWhileSpec(s: string, p: char -> bool)
    ensures var r := TrimStartWhile(s, p);
      && |r| <= |s| && r == s[|s| - |r|..]
      && (forall k :: 0 <= k < |s| - |r| ==> p(s[k]))
      && (r == [] || !p(r[0]))
  {
    if |s| > 0 && p(s[0]) {
      TrimStartWhileSpec(s[1..], p);
      var r := TrimStartWhile(s, p);
      forall k | 0 < k < |s| - |r| ensures p(s[k]) { assert s[k] == s[1..][k - 1]; }
    }
  }

  /**
   * What `trim_end_matches` keeps is a prefix of its input that does not end with `p`,
   * and what it drops all satisfies `p`.
   */
  lemma {:induction false} TrimEndWhileSpec(s: string, p: char -> bool)
    ensures var r := TrimEndWhile(s, p);
      && |r| <= |s| && r == s[..|r|]
      && (forall k :: |r| <= k < |s| ==> p(s[k]))
      && (r == [] || !p(r[|r| - 1]))
  {
    if |s| > 0 && p(s[|s| - 1]) {
      TrimEndWhileSpec(s[..|s| - 1], p);
      var r := TrimEndWhile(s, p);
      forall k | |r| <= k < |s| - 1 ensures p(s[k]) { assert s[k] == s[..|s| - 1][k]; }
    }
  }

  /** `trim_matches(p)`: drops the longest prefix and the longest suffix made of `p` characters. */
  function TrimWhile(s: string, p: char -> bool): string {
    TrimEndWhile(TrimStartWhile(s, p), p)
  }

  /**
   * What trimming keeps is a contiguous part of its input that neither starts nor ends
   * with a `p` character.
   */
  lemma TrimWhileSpec(s: string, p: char -> bool)
    ensures IsSubstring(TrimWhile(s, p), s)
    ensures var r := TrimWhile(s, p); r == [] || (!p(r[0]) && !p(r[|r| - 1]))
  {
    var t := TrimStartWhile(s, p);
    var r := TrimEndWhile(t, p);
    TrimStartWhileSpec(s, p);
    TrimEndWhileSpec(t, p);
    assert r == s[|s| - |t|..|s| - |t| + |r|];
    if r != [] {
      assert r[0] == t[0];
    }
  }

  /** Rust's `str::trim`. */
  function Trim(s: string): string {
    TrimWhile(s, IsWhitespace)
  }

  lemma TrimStartWhileSkips(a: string, b: string, p: char -> bool)
    requires All(a, p)
    ensures TrimStartWhile(a + b, p) == TrimStartWhile(b, p)
  {
    if a != [] {
      assert (a + b)[1..] == a[1..] + b;
      TrimStartWhileSkips(a[1..], b, p);
    } else {
      assert a + b == b;
    }
  }

  lemma TrimStartWhileKeeps(s: string, t: string, p: char -> bool)
    requires !All(s, p)
    ensures TrimStartWhile(s + t, p) == TrimStartWhile(s, p) + t
  {
    if p(s[0]) {
      assert (s + t)[1..] == s[1..] + t;
      assert !All(s[1..], p) by {
        var k :| 0 <= k < |s| && !p(s[k]);
        assert k > 0 && s[1..][k - 1] == s[k];
      }
      TrimStartWhileKeeps(s[1..], t, p);
    }
  }

  lemma TrimEndWhileSkips(a: string, b: string, p: char -> bool)
    requires All(b, p)
    ensures TrimEndWhile(a + b, p) == TrimEndWhile(a, p)
  {
    if b != [] {
      assert (a + b)[..|a + b| - 1] == a + b[..|b| - 1];
      TrimEndWhileSkips(a, b[..|b| - 1], p);
    } else {
      assert a + b == a;
    }
  }

  lemma TrimStartWhileNoop(s: string, p: char -> bool)
    requires s == [] || !p(s[0])
    ensures TrimStartWhile(s, p) == s
  {
  }

  lemma TrimEndWhileNoop(s: string, p: char -> bool)
    requires s == [] || !p(s[|s| - 1])
    ensures TrimEndWhile(s, p) == s
  {
  }

  /** Nothing is trimmed from text that neither starts nor ends with `p`. */
  lemma TrimWhileNoop(s: string, p: char -> bool)
    requires s == [] || (!p(s[0]) && !p(s[|s| - 1]))
    ensures TrimWhile(s, p) == s
  {
    TrimStartWhileNoop(s, p);
    TrimEndWhileNoop(s, p);
  }

  /** One leading `p` character before a core that neither starts nor ends with `p` is trimmed. */
  lemma TrimWhileDropsFirst(s: string, p: char -> bool)
    requires |s| >= 1 && p(s[0])
    requires s[1..] == [] || (!p(s[1]) && !p(s[|s| - 1]))
    ensures TrimWhile(s, p) == s[1..]
  {
    assert TrimStartWhile(s, p) == TrimStartWhile(s[1..], p);
    TrimWhileNoop(s[1..], p);
  }

  /** Trimming never lengthens a text. */
  lemma TrimWhileNoLonger(s: string, p: char -> bool)
    ensures |TrimWhile(s, p)| <= |s|
  {
    TrimStartWhileSpec(s, p);
    TrimEndWhileSpec(TrimStartWhile(s, p), p);
  }

  /** A text that starts or ends with a `p` character loses at least that character. */
  lemma TrimWhileShrinks(s: string, p: char -> bool)
    requires |s| > 0 && (p(s[0]) || p(s[|s| - 1]))
    ensures |TrimWhile(s, p)| < |s|
  {
    var t := TrimStartWhile(s, p);
    TrimStartWhileSpec(s, p);
    TrimEndWhileSpec(t, p);
    if |t| == |s| {
      assert t == s;
    }
  }

  /** Trimming removes exactly the padding around a core that does not start or end with `p`. */
  lemma TrimWhilePadded(a: string, x: string, b: string, p: char -> bool)
    requires All(a, p) && All(b, p)
    requires x == [] || (!p(x[0]) && !p(x[|x| - 1]))
    ensures TrimWhile(a + x + b, p) == x
  {
    assert a + x + b == a + (x + b);
    TrimStartWhileSkips(a, x + b, p);
    if x == [] {
      assert x + b == b;
      TrimStartWhileSkips(b, [], p);
      assert b + [] == b;
    } else {
      TrimStartWhileNoop(x + b, p);
      TrimEndWhileSkips(x, b, p);
      TrimEndWhileNoop(x, p);
    }
  }

  /** Trimming leaves nothing exactly when every character is trimmed. */
  lemma {:induction false} TrimWhileEmptyIff(s: string, p: char -> bool)
    ensures TrimWhile(s, p) == [] <==> All(s, p)
  {
    var t := TrimStartWhile(s, p);
    TrimStartWhileSpec(s, p);
    TrimEndWhileSpec(t, p);
    if All(s, p) {
      TrimStartWhileSkips(s, [], p);
      assert s + [] == s;
    } else {
      var k :| 0 <= k < |s| && !p(s[k]);
      assert k >= |s| - |t|;
      assert t[k - (|s| - |t|)] == s[k];
      assert t != [] && !p(t[0]);

    }
  }

  /** A trailing character that `p` accepts does not change the trimmed result. */
  lemma TrimWhileDropsTrailing(s: string, c: char, p: char -> bool)
    requires p(c)
    ensures TrimWhile(s + [c], p) == TrimWhile(s, p)
  {
    if All(s, p) {
      assert All(s + [c], p);
      TrimWhileEmptyIff(s, p);
      TrimWhileEmptyIff(s + [c], p);
    } else {
      TrimStartWhileKeeps(s, [c], p);
      TrimEndWhileSkips(TrimStartWhile(s, p), [c], p);
    }
  }

  /** Rust's `[&str]::join` with a one-character separator. */
  function JoinWith(parts: seq<string>, sep: char): string
  {
    if |parts| == 0 then []
    else if |parts| == 1 then parts[0]
    else parts[0] + [sep] + JoinWith(parts[1..], sep)
  }

  /** A join is empty exactly when there is nothing to join or one empty part. */
  lemma JoinWithEmptyIff(parts: seq<string>, sep: char)
    ensures JoinWith(parts, sep) == [] <==> parts == [] || parts == [[]]
  {
    if |parts| >= 2 {
      assert |JoinWith(parts, sep)| >= 1;
    }
  }

  /** The separator and the parts are the only characters of a join. */
  lemma {:induction false} JoinWithAll(parts: seq<string>, sep: char, p: char -> bool)
    requires p(sep)
    ensures All(JoinWith(parts, sep), p) <==> forall i :: 0 <= i < |parts| ==> All(parts[i], p)
  {
    if |parts| >= 2 {
      JoinWithAll(parts[1..], sep, p);
      var rest := JoinWith(parts[1..], sep);
      var whole := parts[0] + [sep] + rest;
      if All(whole, p) {
        assert All(parts[0], p) by {
          forall k | 0 <= k < |parts[0]| ensures p(parts[0][k]) { assert whole[k] == parts[0][k]; }
        }
        assert All(rest, p) by {
          forall k | 0 <= k < |rest| ensures p(rest[k]) { assert whole[|parts[0]| + 1 + k] == rest[k]; }
        }
        forall i | 0 <= i < |parts| ensures All(parts[i], p) {
          if i > 0 { assert parts[i] == parts[1..][i - 1]; }
        }
      } else {
        var k :| 0 <= k < |whole| && !p(whole[k]);
        if k < |parts[0]| {
          assert !All(parts[0], p);
        } else {
          assert whole[k] == rest[k - |parts[0]| - 1];
          assert !All(rest, p);
          var i :| 0 <= i < |parts[1..]| && !All(parts[1..][i], p);
          assert !All(parts[i + 1], p);
        }
      }
    }
  }
}
