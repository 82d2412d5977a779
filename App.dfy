/** The game component (App.js, lines 13-100 and 121): the state of the current
    round and of the session statistics, and the handlers that change it. */
module App {
  import opened Words
  import opened Rules

  class Game {
    var word: string               // the secret word of the round
    var guessedLetters: seq<char>  // letters guessed this round, in order
    var wrongGuesses: nat          // guessed letters that are not in the word
    var gameOver: bool
    var gameResult: string         // the message shown when the round has ended
    var gameResults: Stats         // statistics over every round of the session

    /** The state the handlers keep between two events. */
    ghost predicate Valid()
      reads this
    {
      IsLowerWord(word) &&
      NoDuplicates(guessedLetters) &&
      wrongGuesses == WrongCount(word, guessedLetters) &&
      wrongGuesses <= MaxGuesses &&
      gameOver == (Settle(word, guessedLetters, wrongGuesses) != Ongoing) &&
      gameResult == ResultMessage(Settle(word, guessedLetters, wrongGuesses), word) &&
      gameResults.Balanced()
    }

    /** Mounting the component: the first word is chosen (the random draw is
        `idx`) and the end-of-round check runs on it. */
    constructor (idx: nat)
      requires idx < |WordList|
      ensures Valid()
      ensures word == RandomWord(idx) && guessedLetters == [] && wrongGuesses == 0
      ensures !gameOver && gameResult == "" && gameResults == Stats(0, 0, 0)
    {
      var w := RandomWord(idx);
      NoVerdictBeforeFirstGuess(w);
      word := w;
      guessedLetters := [];
      wrongGuesses := 0;
      gameOver := false;
      gameResult := "";
      gameResults := Stats(0, 0, 0);
      new;
      assert Settle(word, guessedLetters, wrongGuesses) == Ongoing;
      SettleAgreesOnChosenWords(word, guessedLetters, wrongGuesses);
      SettleRound();
    }

    /** The end-of-round effect, as written: compare the revealed word with the
        word first, then the wrong count with the maximum; on a verdict, end the
        round, set its message and record it. It does not look at `gameOver`
        itself. Every caller has chosen a word before it runs, where this check
        and the corrected `Settle` agree. */
    method SettleRound()
      modifies this`gameOver, this`gameResult, this`gameResults
      ensures var v := SettleAsWritten(word, guessedLetters, wrongGuesses);
        if v == Ongoing then
          gameOver == old(gameOver) && gameResult == old(gameResult) && gameResults == old(gameResults)
        else
          gameOver && gameResult == ResultMessage(v, word) && gameResults == Record(old(gameResults), v)
    {
      var revealedWord := Reveal(word, guessedLetters);
      if revealedWord == word {
        gameOver := true;
        gameResult := WinMessage;
        gameResults := Record(gameResults, Won);
      } else if wrongGuesses == MaxGuesses {
        gameOver := true;
        gameResult := LossMessage(word);
        gameResults := Record(gameResults, Lost);
      }
    }

    /** A letter guess followed by the end-of-round check. A guess after the
        round has ended, or of a letter already guessed, changes nothing;
        otherwise the letter is appended, a miss adds one wrong guess, and the
        check records at most one verdict. */
    method Guess(letter: char)
      requires Valid()
      modifies this
      ensures Valid()
      ensures old(gameOver) || letter in old(guessedLetters) ==>
        word == old(word) && guessedLetters == old(guessedLetters) &&
        wrongGuesses == old(wrongGuesses) && gameOver == old(gameOver) &&
        gameResult == old(gameResult) && gameResults == old(gameResults)
      ensures !old(gameOver) && letter !in old(guessedLetters) ==>
        var v := Settle(word, guessedLetters, wrongGuesses);
        word == old(word) &&
        guessedLetters == old(guessedLetters) + [letter] &&
        wrongGuesses == old(wrongGuesses) + (if letter in word then 0 else 1) &&
        gameOver == (v != Ongoing) &&
        gameResult == ResultMessage(v, word) &&
        gameResults == Record(old(gameResults), v)
    {
      if !gameOver && letter !in guessedLetters {
        WrongCountAppend(word, guessedLetters, letter);
        guessedLetters := guessedLetters + [letter];
        if letter !in word {
          wrongGuesses := wrongGuesses + 1;
        }
        SettleAgreesOnChosenWords(word, guessedLetters, wrongGuesses);
        SettleRound();
      }
    }

    /** Restart: clear the round, choose a new word (the random draw is `idx`)
        and run the end-of-round check, which finds nothing to record. The
        statistics are kept. */
    method Restart(idx: nat)
      requires Valid()
      requires idx < |WordList|
      modifies this
      ensures Valid()
      ensures word == RandomWord(idx) && guessedLetters == [] && wrongGuesses == 0
      ensures !gameOver && gameResult == ""
      ensures gameResults == old(gameResults)
    {
      word := "";
      guessedLetters := [];
      wrongGuesses := 0;
      gameOver := false;
      gameResult := "";
      word := RandomWord(idx);
      NoVerdictBeforeFirstGuess(word);
      SettleAgreesOnChosenWords(word, guessedLetters, wrongGuesses);
      SettleRound();
    }

    /** The hidden word on display: it shows the whole word exactly when the
        round has been won. */
    function HiddenWord(): (r: string)
      reads this
      requires Valid()
      ensures |r| == |word|
      ensures r == word <==> gameOver && gameResult == WinMessage
    {
      RevealCompleteIff(word, guessedLetters);
      Reveal(word, guessedLetters)
    }

    /** The index into `hangmanImages`: always in range, and equal to the
        number of guessed letters that miss the word. */
    function ImageIndex(): (k: nat)
      reads this
      requires Valid()
      ensures k < |HangmanImages|
      ensures k == WrongCount(word, guessedLetters)
    {
      wrongGuesses
    }
  }
}
