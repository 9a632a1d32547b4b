/** ASCII letter case and substring search, as the clients use them on messages and prefixes. */
module Texts {

  function LowerChar(c: char): char {
    if 'A' <= c <= 'Z' then (c as int + 32) as char else c
  }

  /** The upper-case letters become the lower-case ones, everything else stays. */
  lemma LowerLetters(c: char, i: nat)
    requires i < 26
    ensures LowerChar("ABCDEFGHIJKLMNOPQRSTUVWXYZ"[i]) == "abcdefghijklmnopqrstuvwxyz"[i]
    ensures c !in "ABCDEFGHIJKLMNOPQRSTUVWXYZ" ==> LowerChar(c) == c
  {
    if 'A' <= c <= 'Z' {
      assert "ABCDEFGHIJKLMNOPQRSTUVWXYZ"[c as int - 'A' as int] == c;
    }
  }

  function Lower(s: string): (r: string)
    ensures |r| == |s| && forall i | 0 <= i < |s| :: r[i] == LowerChar(s[i])
  {
    seq(|s|, i requires 0 <= i < |s| => LowerChar(s[i]))
  }

  predicate OccursAt(s: string, word: string, i: nat) {
    i + |word| <= |s| && s[i..i + |word|] == word
  }

  /** An occurrence is a place to cut the text at. */
  lemma ContainsMeaning(before: string, word: string, after: string)
    ensures Contains(before + word + after, word)
  {
    var s := before + word + after;
    assert s[|before|..|before| + |word|] == word;
    assert OccursAt(s, word, |before|);
  }

  lemma ContainsCut(s: string, word: string) returns (before: string, after: string)
    requires Contains(s, word)
    ensures s == before + word + after
  {
    var i :| 0 <= i <= |s| && OccursAt(s, word, i);
    before, after := s[..i], s[i + |word|..];
  }

  predicate Contains(s: string, word: string) {
    exists i | 0 <= i <= |s| :: OccursAt(s, word, i)
  }
}
