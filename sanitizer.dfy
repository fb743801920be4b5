/**
 * The command sanitiser `sanitize_command` (src/main.rs:174-184): the first
 * line of the model's text, trimmed, stripped of every surrounding backtick,
 * trimmed again.
 */
module Sanitizer {
  import opened Text

  predicate IsBacktick(c: char) {
    c == '`'
  }

  /** The index of the first `'\n'` of `s`, or `|s|` when there is none. */
  function LineEnd(s: string): (n: nat)
    ensures n <= |s| && '\n' !in s[..n]
    ensures n < |s| ==> s[n] == '\n'
  {
    if |s| == 0 || s[0] == '\n' then 0
    else
      var m := LineEnd(s[1..]);
      assert s[..1 + m] == [s[0]] + s[1..][..m];
      1 + m
  }

  /**
   * `raw.lines().next().unwrap_or(raw)`: the text before the first `'\n'`, without the
   * `'\r'` of a `"\r\n"` ending; the empty text for the empty input, which has no line.
   */
  function FirstLine(raw: string): (r: string)
    ensures '\n' !in r
    ensures |r| <= |raw| && r == raw[..|r|]
    ensures |r| < |raw| ==> raw[|r|] == '\n' || (raw[|r|] == '\r' && |r| + 1 < |raw| && raw[|r| + 1] == '\n')
    ensures |r| < |raw| && raw[|r|] == '\n' ==> r == [] || r[|r| - 1] != '\r'
  {
    var n := LineEnd(raw);
    if n < |raw| && n > 0 && raw[n - 1] == '\r' then raw[..n - 1] else raw[..n]
  }

  /** `sanitize_command`. */
  function Sanitize(raw: string): string {
    Trim(TrimWhile(Trim(FirstLine(raw)), IsBacktick))
  }

  /**
   * The command is one line cut out of the model's text, with no whitespace at
   * either end.
   */
  lemma SanitizeShape(raw: string)
    ensures IsSubstring(Sanitize(raw), raw)
    ensures '\n' !in Sanitize(raw)
    ensures var r := Sanitize(raw); r == [] || (!IsWhitespace(r[0]) && !IsWhitespace(r[|r| - 1]))
  {
    var line := FirstLine(raw);
    var a := Trim(line);
    var b := TrimWhile(a, IsBacktick);
    var r := Trim(b);
    assert IsSubstring(line, raw) by { assert line == raw[0..|line|]; }
    TrimWhileSpec(line, IsWhitespace);
    TrimWhileSpec(a, IsBacktick);
    TrimWhileSpec(b, IsWhitespace);
    SubstringTransitive(b, a, line);
    SubstringTransitive(r, b, line);
    SubstringTransitive(r, line, raw);
    SubstringExcludes(r, line, '\n');
  }

  lemma LineEndIs(s: string, n: nat)
    requires n <= |s| && '\n' !in s[..n] && (n < |s| ==> s[n] == '\n')
    ensures LineEnd(s) == n
  {
  }

  /** A text without a newline is its own first line. */
  lemma FirstLineWhole(raw: string)
    requires '\n' !in raw
    ensures FirstLine(raw) == raw
  {
    assert raw[..|raw|] == raw;
    LineEndIs(raw, |raw|);
  }

  /** The first line is what precedes the first `'\n'`, less the `'\r'` of a `"\r\n"` ending. */
  lemma FirstLineBefore(raw: string, a: string, rest: string)
    requires raw == a + "\n" + rest && '\n' !in a
    ensures FirstLine(raw) == if |a| > 0 && a[|a| - 1] == '\r' then a[..|a| - 1] else a
  {
    assert raw[..|a|] == a;
    assert raw[|a|] == '\n';
    LineEndIs(raw, |a|);
  }

  /** `Sanitize` is the composition of its four stages. */
  lemma SanitizeByStages(raw: string, line: string, trimmed: string, unquoted: string, r: string)
    requires FirstLine(raw) == line && Trim(line) == trimmed
    requires TrimWhile(trimmed, IsBacktick) == unquoted && Trim(unquoted) == r
    ensures Sanitize(raw) == r
  {
  }

  /** Only the text before the first `'\n'` matters. */
  lemma SanitizeFirstLineOnly(raw: string, a: string, rest: string)
    requires raw == a + "\n" + rest && '\n' !in a
    ensures Sanitize(raw) == Sanitize(a)
  {
    FirstLineBefore(raw, a, rest);
    FirstLineWhole(a);
    if |a| > 0 && a[|a| - 1] == '\r' {
      assert a == a[..|a| - 1] + ['\r'];
      TrimWhileDropsTrailing(a[..|a| - 1], '\r', IsWhitespace);
    }
    assert Trim(FirstLine(raw)) == Trim(FirstLine(a));
  }

  /** A `"\r\n"` line ending is dropped whole. */
  lemma SanitizeCrLf(raw: string, a: string, rest: string)
    requires raw == a + "\r\n" + rest && '\n' !in a
    ensures Sanitize(raw) == Sanitize(a)
  {
    var a' := a + "\r";
    assert raw == a' + "\n" + rest;
    assert a'[..|a'| - 1] == a;
    FirstLineBefore(raw, a', rest);
    FirstLineWhole(a);
  }

  /** Text that starts with a newline sanitises to the empty command. */
  lemma SanitizeLeadingNewline(raw: string)
    requires |raw| > 0 && raw[0] == '\n'
    ensures Sanitize(raw) == ""
  {
    FirstLineBefore(raw, "", raw[1..]);
    TrimWhileNoop([], IsWhitespace);
    TrimWhileNoop([], IsBacktick);
    SanitizeByStages(raw, [], [], [], []);
  }

  /**
   * Whitespace outside any number of backticks, and the backticks themselves, are
   * removed from a one-line command that has neither at its ends.
   */
  lemma SanitizeStripsWrapping(raw: string, w1: string, t1: string, cmd: string, t2: string, w2: string)
    requires raw == w1 + t1 + cmd + t2 + w2 && '\n' !in raw
    requires All(w1, IsWhitespace) && All(w2, IsWhitespace) && All(t1, IsBacktick) && All(t2, IsBacktick)
    requires cmd == [] || (!IsWhitespace(cmd[0]) && !IsWhitespace(cmd[|cmd| - 1])
                           && !IsBacktick(cmd[0]) && !IsBacktick(cmd[|cmd| - 1]))
    ensures Sanitize(raw) == cmd
  {
    var x := t1 + cmd + t2;
    FirstLineWhole(raw);
    assert raw == w1 + x + w2;
    if x == [] {
      TrimWhilePadded(w1, x, w2, IsWhitespace);
      TrimWhileNoop([], IsBacktick);
      TrimWhileNoop([], IsWhitespace);
      SanitizeByStages(raw, raw, [], [], []);
    } else {
      assert x[0] == (if t1 != [] then t1[0] else if cmd != [] then cmd[0] else t2[0]);
      assert x[|x| - 1] == (if t2 != [] then t2[|t2| - 1] else if cmd != [] then cmd[|cmd| - 1] else t1[|t1| - 1]);
      TrimWhilePadded(w1, x, w2, IsWhitespace);
      TrimWhilePadded(t1, cmd, t2, IsBacktick);
      TrimWhileNoop(cmd, IsWhitespace);
      SanitizeByStages(raw, raw, x, cmd, cmd);
    }
  }

  /** A one-line command with nothing to strip is its own sanitised form. */
  lemma SanitizeKeepsClean(cmd: string)
    requires '\n' !in cmd
    requires cmd == [] || (!IsWhitespace(cmd[0]) && !IsWhitespace(cmd[|cmd| - 1])
                           && !IsBacktick(cmd[0]) && !IsBacktick(cmd[|cmd| - 1]))
    ensures Sanitize(cmd) == cmd
  {
    FirstLineWhole(cmd);
    TrimWhileNoop(cmd, IsWhitespace);
    TrimWhileNoop(cmd, IsBacktick);
    SanitizeByStages(cmd, cmd, cmd, cmd, cmd);
  }

  /** A second pass changes nothing when the first result neither starts nor ends with a backtick. */
  lemma SanitizeStableWithoutEdgeBackticks(raw: string)
    requires var r := Sanitize(raw); r == [] || (!IsBacktick(r[0]) && !IsBacktick(r[|r| - 1]))
    ensures Sanitize(Sanitize(raw)) == Sanitize(raw)
  {
    SanitizeShape(raw);
    SanitizeKeepsClean(Sanitize(raw));
  }

  /**
   * A second pass changes nothing exactly when the first result neither starts nor ends
   * with a backtick: an edge backtick is always stripped by the second pass.
   */
  lemma SanitizeStableIff(raw: string)
    ensures var r := Sanitize(raw);
      Sanitize(r) == r <==> r == [] || (!IsBacktick(r[0]) && !IsBacktick(r[|r| - 1]))
  {
    var r := Sanitize(raw);
    if r == [] || (!IsBacktick(r[0]) && !IsBacktick(r[|r| - 1])) {
      SanitizeStableWithoutEdgeBackticks(raw);
    } else {
      SanitizeShape(raw);
      FirstLineWhole(r);
      TrimWhileNoop(r, IsWhitespace);
      var b := TrimWhile(r, IsBacktick);
      TrimWhileShrinks(r, IsBacktick);
      TrimWhileNoLonger(b, IsWhitespace);
      SanitizeByStages(r, r, r, b, Trim(b));
    }
  }

  /**
   * The sanitiser is not idempotent: stripping backticks can expose whitespace whose
   * removal exposes another backtick.
   */
  lemma SanitizeNotIdempotent()
    ensures Sanitize("` `x") == "`x"
    ensures Sanitize("`x") == "x"
    ensures Sanitize(Sanitize("` `x")) != Sanitize("` `x")
  {
    SanitizeExposesBacktick("` `x");
    SanitizeDropsBacktick("`x");
  }

  /** A single leading backtick before a clean command goes. */
  lemma SanitizeDropsBacktick(raw: string)
    requires |raw| >= 2 && '\n' !in raw && raw[0] == '`'
    requires !IsWhitespace(raw[1]) && !IsBacktick(raw[1])
    requires !IsWhitespace(raw[|raw| - 1]) && !IsBacktick(raw[|raw| - 1])
    ensures Sanitize(raw) == raw[1..]
  {
    FirstLineWhole(raw);
    TrimWhileNoop(raw, IsWhitespace);
    TrimWhileDropsFirst(raw, IsBacktick);
    TrimWhileNoop(raw[1..], IsWhitespace);
    SanitizeByStages(raw, raw, raw, raw[1..], raw[1..]);
  }

  /**
   * A backtick, whitespace, then a backtick-led command that ends in neither: one
   * backtick and the whitespace go, the second backtick stays.
   */
  lemma SanitizeExposesBacktick(raw: string)
    requires |raw| >= 4 && '\n' !in raw
    requires raw[0] == '`' && IsWhitespace(raw[1]) && raw[2] == '`'
    requires !IsWhitespace(raw[|raw| - 1]) && !IsBacktick(raw[|raw| - 1])
    ensures Sanitize(raw) == raw[2..]
  {
    var mid := raw[1..];
    FirstLineWhole(raw);
    TrimWhileNoop(raw, IsWhitespace);
    TrimWhileDropsFirst(raw, IsBacktick);
    assert mid[1..] == raw[2..];
    TrimWhileDropsFirst(mid, IsWhitespace);
    SanitizeByStages(raw, raw, raw, mid, raw[2..]);
  }

  lemma SanitizeExample1() ensures Sanitize("ls -la") == "ls -la" {
    SanitizeKeepsClean("ls -la");
  }
  lemma SanitizeExample2() ensures Sanitize("`ls -la`") == "ls -la" {
    SanitizeStripsWrapping("`ls -la`", [], "`", "ls -la", "`", []);
  }
  lemma SanitizeExample3() ensures Sanitize("```ls```") == "ls" {
    SanitizeStripsWrapping("```ls```", [], "```", "ls", "```", []);
  }
  lemma SanitizeExample4() ensures Sanitize("  `ls -la`  ") == "ls -la" {
    SanitizeStripsWrapping("  `ls -la`  ", "  ", "`", "ls -la", "`", "  ");
  }
  lemma SanitizeExample5() ensures Sanitize("cmd1\ncmd2") == Sanitize("cmd1") {
    SanitizeFirstLineOnly("cmd1\ncmd2", "cmd1", "cmd2");
  }
  lemma SanitizeExample6() ensures Sanitize("ls -la\r\nexplanation") == "ls -la" {
    SanitizeCrLf("ls -la\r\nexplanation", "ls -la", "explanation");
    SanitizeExample1();
  }
  lemma SanitizeExample7() ensures Sanitize("\nls") == "" {
    SanitizeLeadingNewline("\nls");
  }
  lemma SanitizeExample8() ensures Sanitize("ls -la\n") == "ls -la" {
    SanitizeFirstLineOnly("ls -la\n", "ls -la", "");
    SanitizeExample1();
  }
}
