/** TEXT unescaping (src/service/utils.rs): five successive `str::replace`
    calls, each rewriting a two-character escape into one character. */
module Utils {

  /** `s.replace([a, b], [c])`: scan left to right, rewriting every
      non-overlapping occurrence of the pair `a b` into `c`. */
  function ReplacePair(s: string, a: char, b: char, c: char): (r: string)
    ensures |r| <= |s|
    ensures a !in s ==> r == s
    decreases |s|
  {
    if |s| < 2 then s
    else if s[0] == a && s[1] == b then [c] + ReplacePair(s[2..], a, b, c)
    else [s[0]] + ReplacePair(s[1..], a, b, c)
  }

  /** True when `s` holds the pair `a b` at some position. */
  predicate HasPair(s: string, a: char, b: char) {
    exists i :: 0 <= i < |s| - 1 && s[i] == a && s[i + 1] == b
  }

  /** `unescape`: the five replacements in source order. Every step turns two
      characters into one, so unescaping never lengthens, and text without a
      backslash passes through. */
  function Unescape(raw: string): (r: string)
    ensures |r| <= |raw|
    ensures '\\' !in raw ==> r == raw
  {
    var s1 := ReplacePair(raw, '\\', ',', ',');
    var s2 := ReplacePair(s1, '\\', 'n', '\n');
    var s3 := ReplacePair(s2, '\\', 'n', '\n');
    var s4 := ReplacePair(s3, '\\', ';', ';');
    ReplacePair(s4, '\\', '\\', '\\')
  }

  /** A string without the pair is left as it is. */
  lemma {:induction false} ReplaceWithoutPair(s: string, a: char, b: char, c: char)
    requires !HasPair(s, a, b)
    ensures ReplacePair(s, a, b, c) == s
    decreases |s|
  {
    if |s| >= 2 {
      assert !(s[0] == a && s[0 + 1] == b);
      forall i | 0 <= i < |s[1..]| - 1
        ensures !(s[1..][i] == a && s[1..][i + 1] == b)
      {
        assert s[1..][i] == s[i + 1] && s[1..][i + 1] == s[(i + 1) + 1];
      }
      ReplaceWithoutPair(s[1..], a, b, c);
    }
  }

  /** The first character of a replacement result is the replacement or the
      first character of the input. */
  lemma {:induction false} ReplaceHead(s: string, a: char, b: char, c: char)
    requires |s| > 0
    ensures |ReplacePair(s, a, b, c)| > 0
    ensures ReplacePair(s, a, b, c)[0] == (if |s| >= 2 && s[0] == a && s[1] == b then c else s[0])
  {
  }

  /** When the replacement is neither character of the pair, no pair survives:
      the output has no occurrence of `a b` left. */
  lemma {:induction false} ReplaceLeavesNoPair(s: string, a: char, b: char, c: char)
    requires c != a && c != b
    ensures !HasPair(ReplacePair(s, a, b, c), a, b)
    decreases |s|
  {
    var r := ReplacePair(s, a, b, c);
    if |s| >= 2 {
      var matched := s[0] == a && s[1] == b;
      var rest := if matched then s[2..] else s[1..];
      var tail := if matched then [c] else [s[0]];
      ReplaceLeavesNoPair(rest, a, b, c);
      var rr := ReplacePair(rest, a, b, c);
      assert r == tail + rr;
      forall i | 0 <= i < |r| - 1
        ensures !(r[i] == a && r[i + 1] == b)
      {
        if i == 0 {
          if r[0] == a {
            assert !matched && s[0] == a && s[1] != b;
            ReplaceHead(rest, a, b, c);
            assert r[1] == rr[0];
          }
        } else {
          assert r[i] == rr[i - 1] && r[i + 1] == rr[(i - 1) + 1];
        }
      }
    }
  }

  /** The second `\n` replacement never changes anything: the first one leaves
      no backslash-`n` pair behind. */
  lemma RepeatedNewlineStepIsNoOp(s: string)
    ensures ReplacePair(ReplacePair(s, '\\', 'n', '\n'), '\\', 'n', '\n') == ReplacePair(s, '\\', 'n', '\n')
  {
    ReplaceLeavesNoPair(s, '\\', 'n', '\n');
    ReplaceWithoutPair(ReplacePair(s, '\\', 'n', '\n'), '\\', 'n', '\n');
  }

  /** The escapes of section 3.3.11 of RFC 5545 that the chain decodes. */
  lemma UnescapeDecodesEscapes()
    ensures Unescape("\\,") == ","
    ensures Unescape("\\;") == ";"
    ensures Unescape("\\n") == "\n"
    ensures Unescape("\\\\") == "\\"
  {
  }

  /** Because `\\` is rewritten last, an escaped backslash followed by `n`
      becomes a backslash and a newline, where section 3.3.11 of RFC 5545 reads
      a backslash followed by the letter `n`. */
  lemma EscapedBackslashBeforeN()
    ensures Unescape("\\\\n") == "\\\n"
    ensures Unescape("\\\\n") != "\\n"
  {
  }
}
