/** The word pool and the choice of a secret word (App.js, lines 8 and 41-44). */
module Words {

  /** The fixed list of candidate secret words. */
  const WordList: seq<string> := ["hangman", "javascript", "react", "openai"]

  predicate IsUpper(c: char) { 'A' <= c <= 'Z' }

  predicate IsLowerLetter(c: char) { 'a' <= c <= 'z' }

  /** A usable secret word: non-empty and made of the letters a-z only. */
  predicate IsLowerWord(w: string)
  {
    |w| > 0 && forall i :: 0 <= i < |w| ==> IsLowerLetter(w[i])
  }

  /** `toLowerCase` on one character, for the ASCII range. */
  function ToLower(c: char): (r: char)
    ensures !IsUpper(r)
    ensures r == c <==> !IsUpper(c)
    ensures IsUpper(c) ==> IsLowerLetter(r) && r as int - 'a' as int == c as int - 'A' as int
  {
    if IsUpper(c) then (c as int - 'A' as int + 'a' as int) as char else c
  }

  /** `toLowerCase` on a string: same length, no upper-case letter left, and the
      identity on a string that has none. */
  function Lowercase(s: string): (r: string)
    ensures |r| == |s|
    ensures forall i :: 0 <= i < |s| ==> r[i] == ToLower(s[i])
    ensures forall i :: 0 <= i < |r| ==> !IsUpper(r[i])
    ensures forall i :: 0 <= i < |s| ==> (r[i] == s[i] <==> !IsUpper(s[i]))
    ensures (forall i :: 0 <= i < |s| ==> !IsUpper(s[i])) ==> r == s
  {
    seq(|s|, i requires 0 <= i < |s| => ToLower(s[i]))
  }

  /** Every word of the pool is already a lower-case word. */
  lemma WordListIsLower()
    ensures forall i :: 0 <= i < |WordList| ==> IsLowerWord(WordList[i])
  {
  }

  /** `getRandomWord` with the random draw replaced by its index: the word at
      `idx`, lower-cased. Lower-casing changes nothing for this pool. */
  function RandomWord(idx: nat): (w: string)
    requires idx < |WordList|
    ensures w == WordList[idx]
    ensures IsLowerWord(w)
  {
    WordListIsLower();
    Lowercase(WordList[idx])
  }
}
