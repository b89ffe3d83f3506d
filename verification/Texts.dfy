/** What stands where in a text. */
module Texts {

  /** White space as JavaScript has it: what `\s` matches and `trim` takes off. */
  predicate IsSpace(c: char) {
    || '\t' <= c <= '\r' || c == ' ' || c == '\U{00a0}' || c == '\U{1680}'
    || '\U{2000}' <= c <= '\U{200a}' || c == '\U{2028}' || c == '\U{2029}'
    || c == '\U{202f}' || c == '\U{205f}' || c == '\U{3000}' || c == '\U{feff}'
  }

  predicate StartsAt(text: string, pattern: string, i: nat) {
    i + |pattern| <= |text| && text[i..i + |pattern|] == pattern
  }

  lemma PartsStart(text: string, a: string, b: string, i: nat)
    requires StartsAt(text, a + b, i)
    ensures StartsAt(text, a, i) && StartsAt(text, b, i + |a|)
  {
    assert text[i..i + |a|] == text[i..i + |a + b|][..|a|];
    assert text[i + |a|..i + |a| + |b|] == text[i..i + |a + b|][|a|..];
  }

  lemma CharAt(text: string, pattern: string, i: nat, j: nat)
    requires StartsAt(text, pattern, i) && j < |pattern|
    ensures text[i + j] == pattern[j]
  {
    assert text[i..i + |pattern|][j] == pattern[j];
  }
}
