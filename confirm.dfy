/**
 * The decision of `confirm_run` (src/main.rs:192-193): a line of input accepts
 * the command when, trimmed and lowercased, it reads `y` or `yes`.
 */
module Confirm {
  import opened Text

  /** Lowercasing of one character; only ASCII letters change. */
  function LowerChar(c: char): char {
    if 'A' <= c <= 'Z' then (c as int + 32) as char else c
  }

  /** `to_lowercase`, character by character. */
  function Lower(s: string): string {
    seq(|s|, i requires 0 <= i < |s| => LowerChar(s[i]))
  }

  /** `input.trim().to_lowercase()` compared with `"y"` and `"yes"`. */
  predicate Decide(line: string) {
    var decision := Lower(Trim(line));
    decision == "y" || decision == "yes"
  }

  /** `y` or `yes`, each letter in either case. */
  predicate IsAffirmative(t: string) {
    || (|t| == 1 && (t[0] == 'y' || t[0] == 'Y'))
    || (|t| == 3 && (t[0] == 'y' || t[0] == 'Y') && (t[1] == 'e' || t[1] == 'E')
                 && (t[2] == 's' || t[2] == 'S'))
  }

  lemma LowerCharIs(c: char, lower: char, upper: char)
    requires 'a' <= lower <= 'z' && upper as int == lower as int - 32
    ensures LowerChar(c) == lower <==> c == lower || c == upper
  {
  }

  /** The line is accepted exactly when its trimmed text is `y` or `yes` in any mix of cases. */
  lemma DecideIff(line: string)
    ensures Decide(line) <==> IsAffirmative(Trim(line))
  {
    var t := Trim(line);
    var d := Lower(t);
    if |t| == 1 {
      LowerCharIs(t[0], 'y', 'Y');
      assert d == [LowerChar(t[0])];
    } else if |t| == 3 {
      LowerCharIs(t[0], 'y', 'Y');
      LowerCharIs(t[1], 'e', 'E');
      LowerCharIs(t[2], 's', 'S');
      assert d == [LowerChar(t[0]), LowerChar(t[1]), LowerChar(t[2])];
    } else {
      assert |d| == |t|;
    }
  }

  /** Whitespace around the answer, a trailing newline included, does not matter. */
  lemma DecideIgnoresPadding(line: string, w1: string, answer: string, w2: string)
    requires line == w1 + answer + w2 && All(w1, IsWhitespace) && All(w2, IsWhitespace)
    requires answer == [] || (!IsWhitespace(answer[0]) && !IsWhitespace(answer[|answer| - 1]))
    ensures Decide(line) <==> IsAffirmative(answer)
  {
    TrimWhilePadded(w1, answer, w2, IsWhitespace);
    DecideIff(line);
  }

  /** Accepted answers: `y`, `Y`, `yes` and `YES`, with or without padding. */
  lemma DecideAccepts(line: string)
    requires line in {"y", "Y", "yes", "YES", "Y\n", "  y  "}
    ensures Decide(line)
  {
    if line == "Y\n" {
      DecideIgnoresPadding(line, [], "Y", "\n");
    } else if line == "  y  " {
      DecideIgnoresPadding(line, "  ", "y", "  ");
    } else {
      DecideIgnoresPadding(line, [], line, []);
    }
  }

  /** Declined answers: the empty line, `n`, `no`, `maybe`, `yes please` and `y e s`. */
  lemma DecideDeclines(line: string)
    requires line in {"", "n", "no", "maybe", "yes please", "y e s"}
    ensures !Decide(line)
  {
    DecideIgnoresPadding(line, [], line, []);
  }
}
