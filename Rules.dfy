/** The pure rules of a round: the revealed word, the wrong-guess count, the
    verdict of the end-of-round check, the result messages and the statistics
    (App.js, lines 19, 23-27, 69-121). */
module Rules {

  /** `maxGuesses`: the number of wrong guesses that ends a round. */
  const MaxGuesses: nat := 10

  /** The mask shown for a letter not yet guessed. */
  const Placeholder: char := '_'

  /** `hangmanImages`: one picture per wrong-guess count from 0 to MaxGuesses. */
  const HangmanImages: seq<string> := [
    "hangman-0.gif", "hangman-1.gif", "hangman-2.gif", "hangman-3.gif",
    "hangman-4.gif", "hangman-5.gif", "hangman-6.gif", "hangman-7.gif",
    "hangman-8.gif", "hangman-9.gif", "hangman-10.gif"
  ]

  const WinMessage: string := "Congratulations! You won!"

  /** The text in front of the secret word in the loss message. */
  const LossPrefix: string := "Game Over! The word was \""

  /** The loss message: the secret word can be read back out of it. */
  function LossMessage(word: string): (m: string)
    ensures |m| == |word| + 27
    ensures m[..25] == LossPrefix && m[25..|m| - 2] == word && m[|m| - 2..] == "\"."
    ensures m != WinMessage
  {
    LossPrefix + word + "\"."
  }

  predicate NoDuplicates(s: seq<char>)
  {
    forall i, j :: 0 <= i < j < |s| ==> s[i] != s[j]
  }

  /** Every position of `word` holds a guessed letter. */
  predicate AllGuessed(word: string, guessed: seq<char>)
  {
    forall i :: 0 <= i < |word| ==> word[i] in guessed
  }

  /** Every position of `word` would show its own character once revealed:
      it is guessed, or it is the placeholder itself. */
  predicate ShowsThrough(word: string, guessed: seq<char>)
  {
    forall i :: 0 <= i < |word| ==> word[i] == Placeholder || word[i] in guessed
  }

  /** The revealed word: each character of `word` if it has been guessed,
      the placeholder otherwise. */
  function Reveal(word: string, guessed: seq<char>): (r: string)
    ensures |r| == |word|
    ensures forall i :: 0 <= i < |word| ==>
      r[i] == (if word[i] in guessed then word[i] else Placeholder)
  {
    if word == [] then []
    else [if word[0] in guessed then word[0] else Placeholder] + Reveal(word[1..], guessed)
  }

  /** The revealed word equals the word exactly when every character shows through. */
  lemma RevealIsWordIff(word: string, guessed: seq<char>)
    ensures Reveal(word, guessed) == word <==> ShowsThrough(word, guessed)
  {
  }

  /** For a word of letters the revealed word is complete exactly when every
      letter has been guessed. */
  lemma RevealCompleteIff(word: string, guessed: seq<char>)
    requires forall i :: 0 <= i < |word| ==> word[i] != Placeholder
    ensures Reveal(word, guessed) == word <==> AllGuessed(word, guessed)
  {
  }

  /** A character matched by the regular expression `\w`. */
  predicate IsWordChar(c: char)
  {
    'a' <= c <= 'z' || 'A' <= c <= 'Z' || '0' <= c <= '9' || c == '_'
  }

  /** `word.replace(/\w/g, '_')`: the mask shown when a word is first chosen. */
  function MaskAll(word: string): (r: string)
    ensures |r| == |word|
    ensures forall i :: 0 <= i < |word| ==> (r[i] == Placeholder <==> IsWordChar(word[i]) || word[i] == Placeholder)
    ensures forall i :: 0 <= i < |word| ==> !IsWordChar(word[i]) ==> r[i] == word[i]
  {
    seq(|word|, i requires 0 <= i < |word| => if IsWordChar(word[i]) then Placeholder else word[i])
  }

  /** For a word made of `\w` characters, the initial mask is the revealed word
      with nothing guessed, so the two effects that write the hidden word agree. */
  lemma MaskAllIsRevealOfNothing(word: string)
    requires forall i :: 0 <= i < |word| ==> IsWordChar(word[i])
    ensures MaskAll(word) == Reveal(word, [])
  {
  }

  /** The number of guessed letters that do not occur in `word`. */
  function WrongCount(word: string, guessed: seq<char>): (n: nat)
    ensures n <= |guessed|
    ensures n == 0 <==> forall i :: 0 <= i < |guessed| ==> guessed[i] in word
  {
    if guessed == [] then 0
    else (if guessed[0] in word then 0 else 1) + WrongCount(word, guessed[1..])
  }

  /** Appending a guess adds one to the wrong count exactly when the letter is
      not in the word. */
  lemma {:induction false} WrongCountAppend(word: string, guessed: seq<char>, c: char)
    ensures WrongCount(word, guessed + [c]) == WrongCount(word, guessed) + (if c in word then 0 else 1)
  {
    if guessed == [] {
      assert guessed + [c] == [c];
      assert [c][1..] == [];
    } else {
      assert (guessed + [c])[1..] == guessed[1..] + [c];
      WrongCountAppend(word, guessed[1..], c);
    }
  }

  /** The outcome of the end-of-round check. */
  datatype Verdict = Ongoing | Won | Lost

  /** The end-of-round check exactly as written: the revealed word is compared
      with the word first, then the wrong count with the maximum. An empty
      word passes the first test. */
  function SettleAsWritten(word: string, guessed: seq<char>, wrongGuesses: nat): (v: Verdict)
    ensures v == Won <==> ShowsThrough(word, guessed)
    ensures v == Lost <==> !ShowsThrough(word, guessed) && wrongGuesses == MaxGuesses
  {
    RevealIsWordIff(word, guessed);
    if Reveal(word, guessed) == word then Won
    else if wrongGuesses == MaxGuesses then Lost
    else Ongoing
  }

  /** With no word chosen yet, the check as written already declares a win,
      so the statistics of a fresh session would read one game, one win. */
  lemma EmptyWordIsWonAsWritten(guessed: seq<char>, wrongGuesses: nat)
    ensures SettleAsWritten([], guessed, wrongGuesses) == Won
    ensures Record(Stats(0, 0, 0), SettleAsWritten([], guessed, wrongGuesses)) == Stats(1, 1, 0)
  {
  }

  /** The end-of-round check with the win test restricted to a chosen
      (non-empty) word. A round is won when every character shows through, and
      the win is tested before the loss, so a guess that completes the word on
      the last allowed miss still wins. */
  function Settle(word: string, guessed: seq<char>, wrongGuesses: nat): (v: Verdict)
    ensures v == Won <==> |word| > 0 && ShowsThrough(word, guessed)
    ensures v == Lost <==> !(|word| > 0 && ShowsThrough(word, guessed)) && wrongGuesses == MaxGuesses
  {
    RevealIsWordIff(word, guessed);
    if |word| > 0 && Reveal(word, guessed) == word then Won
    else if wrongGuesses == MaxGuesses then Lost
    else Ongoing
  }

  /** Once a word is chosen the corrected check is the check as written. */
  lemma SettleAgreesOnChosenWords(word: string, guessed: seq<char>, wrongGuesses: nat)
    requires |word| > 0
    ensures Settle(word, guessed, wrongGuesses) == SettleAsWritten(word, guessed, wrongGuesses)
  {
  }

  /** Before any guess the corrected check gives no verdict, whether or not a
      word has been chosen yet. */
  lemma NoVerdictBeforeFirstGuess(word: string)
    requires forall i :: 0 <= i < |word| ==> word[i] != Placeholder
    ensures Settle(word, [], 0) == Ongoing
  {
  }

  /** Guessing every letter of a chosen word wins the round, whatever the
      wrong count, and reveals the whole word. */
  lemma GuessingEveryLetterWins(word: string, guessed: seq<char>, wrongGuesses: nat)
    requires |word| > 0 && AllGuessed(word, guessed)
    ensures Settle(word, guessed, wrongGuesses) == Won
    ensures Reveal(word, guessed) == word
  {
  }

  /** The message a round shows: empty while it goes on. */
  function ResultMessage(v: Verdict, word: string): (m: string)
    ensures m == "" <==> v == Ongoing
    ensures m == WinMessage <==> v == Won
    ensures v == Lost ==> m == LossMessage(word)
  {
    match v
    case Ongoing => ""
    case Won => WinMessage
    case Lost => LossMessage(word)
  }

  /** `gameResults`: games played, won and lost in this session. */
  datatype Stats = Stats(totalGames: nat, wins: nat, losses: nat)
  {
    predicate Balanced() { totalGames == wins + losses }
  }

  /** Recording a verdict: a finished round adds one game and one win or one
      loss; a round still going on changes nothing. Counters never decrease
      and the balance is kept. */
  function Record(s: Stats, v: Verdict): (r: Stats)
    ensures r.Balanced() <==> s.Balanced()
    ensures r.totalGames == s.totalGames + (if v == Ongoing then 0 else 1)
    ensures r.wins - s.wins == (if v == Won then 1 else 0)
    ensures r.losses - s.losses == (if v == Lost then 1 else 0)
  {
    match v
    case Ongoing => s
    case Won => s.(totalGames := s.totalGames + 1, wins := s.wins + 1)
    case Lost => s.(totalGames := s.totalGames + 1, losses := s.losses + 1)
  }
}
