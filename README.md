# Hangman game state machine

A Dafny model of the game logic of the React hangman app. The app picks a
secret word from a fixed list, and the player guesses letters one at a time.
Each guess that misses adds one wrong guess. A round is won once the revealed
word equals the word. It is lost once the wrong guesses reach 10. Each end of
a round is counted in the session statistics (games, wins, losses).

- `Words.dfy` (module `Words`): the word list, `toLowerCase` on ASCII, and the
  choice of a word from an index (`getRandomWord` with `Math.random` made a
  parameter).
- `Rules.dfy` (module `Rules`): the pure rules of a round. These are the
  revealed word, the initial mask, the wrong-guess count, the end-of-round
  verdict (as written and corrected), the result messages and the statistics.
- `App.dfy` (module `App`): class `Game`, holding the component's state in
  fields. Its constructor models mounting. `Guess` models `handleGuess` followed
  by the end-of-round effect, as one step. `Restart` models `handleRestart`.
  `Valid()` is the invariant that every handler keeps:
  - the word is a non-empty lower-case word;
  - `guessedLetters` has no duplicates;
  - `wrongGuesses` is the number of guessed letters not in the word, and is at
    most 10;
  - `gameOver` and `gameResult` agree with the verdict;
  - `totalGames == wins + losses`.

## Model

| member | source | states |
|---|---|---|
| `Words.ToLower` | hangman/src/App.js:43 | The result has no upper-case ASCII letter. It differs from the input exactly when the input is upper case, and then it is the matching lower-case letter ('A' to 'a', ..., 'Z' to 'z'). |
| `Words.Lowercase` | hangman/src/App.js:43 | Keeps the length and lower-cases each position on its own (position i is `ToLower(s[i])`), leaving no upper-case letter. A string with no upper-case letter is unchanged. |
| `Words.WordListIsLower` | hangman/src/App.js:8 | Every word in the list is non-empty and made of the letters a-z. |
| `Words.RandomWord` | hangman/src/App.js:41-44 | For an index within the list, the chosen word is the list entry itself (lower-casing changes nothing), and it is a lower-case word. |
| `Rules.Reveal` | hangman/src/App.js:77-80 | The revealed word has the word's length. Position i is `word[i]` if that character was guessed, and `_` otherwise. |
| `Rules.RevealIsWordIff` | hangman/src/App.js:77-83 | The revealed word equals the word if and only if every position is guessed or is `_` itself. |
| `Rules.RevealCompleteIff` | hangman/src/App.js:77-83 | For a word without `_`, the revealed word equals the word if and only if every letter of the word was guessed. |
| `Rules.MaskAll` | hangman/src/App.js:69-73 | `word.replace(/\w/g, '_')`: same length. A `\w` character becomes `_`, and any other character is kept. |
| `Rules.MaskAllIsRevealOfNothing` | hangman/src/App.js:69-81 | For a word of `\w` characters, the mask set when a word is chosen equals the revealed word with nothing guessed. So the two effects that write `hiddenWord` agree. |
| `Rules.WrongCount` | hangman/src/App.js:52-54 | The number of guessed letters not in the word. It is at most the number of guesses, and it is 0 exactly when every guess hits. |
| `Rules.WrongCountAppend` | hangman/src/App.js:49-54 | Appending a letter adds 1 to the wrong count if the letter is not in the word, and 0 if it is. |
| `Rules.SettleAsWritten` | hangman/src/App.js:83-99 | The check as written. Won if and only if every position shows through (the win test runs first). Lost if and only if it is not won and the wrong guesses equal 10. |
| `Rules.EmptyWordIsWonAsWritten` | hangman/src/App.js:83-90 | As written, an empty word is won whatever was guessed, and recording it turns empty statistics into one game and one win. |
| `Rules.Settle` | hangman/src/App.js:83-99 | The corrected check. Won if and only if the word is non-empty and every position shows through. Lost if and only if it is not won and the wrong guesses equal 10. So a win on the tenth miss is still a win. |
| `Rules.SettleAgreesOnChosenWords` | hangman/src/App.js:83-99 | For every non-empty word, the corrected check gives the same verdict as the check as written. |
| `Rules.NoVerdictBeforeFirstGuess` | hangman/src/App.js:64-100 | With no guesses and no wrong guesses, the corrected check gives no verdict for any word without `_`, including the empty word before one is chosen. |
| `Rules.GuessingEveryLetterWins` | hangman/src/App.js:83-85 | Once every letter of a non-empty word is guessed, the round is won whatever the wrong count, and the revealed word is the word. |
| `Rules.LossMessage` | hangman/src/App.js:93 | The loss message is `Game Over! The word was "` + word + `".`. The word can be read back from positions 25 to length-2, and the message differs from the win message. |
| `Rules.ResultMessage` | hangman/src/App.js:85-93 | The message is empty exactly while the round goes on. It is `Congratulations! You won!` exactly on a win, and on a loss it is `LossMessage(word)`, which holds the word. |
| `Rules.Record` | hangman/src/App.js:86-98 | A verdict adds 1 to `totalGames` and 1 to exactly one of `wins` or `losses`. A round still going on changes nothing. `totalGames == wins + losses` is kept. |
| `App.Game.constructor` | hangman/src/App.js:15-27 | Mounting with the draw `idx`: the word is `RandomWord(idx)`, no guesses, 0 wrong, not over, empty message, all statistics 0, and `Valid()` holds. |
| `App.Game.SettleRound` | hangman/src/App.js:76-100 | The effect as written (`SettleAsWritten`, win test first): on a verdict it sets `gameOver`, the verdict's message and the recorded statistics. With no verdict it changes nothing. It does not consult `gameOver`. |
| `App.Game.Guess` | hangman/src/App.js:47-56 | A guess once the game is over, or of a letter already guessed, changes no field. Otherwise the letter is appended and a miss adds exactly 1 to `wrongGuesses`. The round ends exactly on a verdict, with its message and one recorded game. `Valid()` is kept. |
| `App.Game.Restart` | hangman/src/App.js:30-38 | Clears the guesses, the wrong count, `gameOver` and the message. The word becomes `RandomWord(idx)`, the statistics are unchanged, and `Valid()` holds. |
| `App.Game.HiddenWord` | hangman/src/App.js:77-81 | The displayed word has the word's length. It shows the whole word exactly when the round is over with the win message. |
| `App.Game.ImageIndex` | hangman/src/App.js:103-121 | `hangmanImages[wrongGuesses]` is always in range (below 11). The index is the number of guessed letters that miss the word. |

## Findings

| source | as written | input that shows it | evidently intended | confidence | as-written member | corrected member |
|---|---|---|---|---|---|---|
| hangman/src/App.js:83 | The win test `revealedWord === word` also holds for the empty word. | The first render: `word` is `''` (line 15), and the effects at lines 64-66 and 76-100 run with that render's values. The check sees `'' === ''` and records a win: `gameOver` is set and the statistics read 1 game, 1 win, before any guess. | No verdict until a word is chosen. The new round should start in play with empty statistics. | not executed; follows from reading the effect order | `Rules.EmptyWordIsWonAsWritten` | `Rules.NoVerdictBeforeFirstGuess` |

`App.Game.SettleRound` runs the check as written. The corrected behaviour is in the order of the constructor: it chooses the word before it runs the check. The invariant `Valid()` is stated with the corrected `Rules.Settle`, and `Rules.SettleAgreesOnChosenWords` shows that the two agree once a word is chosen. `Restart` is not affected: React applies its `setWord('')` and the new word together, so the effect only sees the new word.

## Left out

- Rendering, JSX and CSS (App.js lines 117-155), `WordDisplay.js`, and the image files themselves. Only the image file names and their count are kept.
- The help text and the `showHelp` toggle (lines 22, 59-61, 129-147) and `HelpButton.js`: display only.
- `Keyboard.js`: it sends only the letters a-z and disables used letters and the finished game. `Guess` needs neither restriction. It takes any character and refuses repeats and finished games itself, as `handleGuess` does.
- `Math.random` (line 42): the draw is the parameter `idx`, with `idx < |WordList|`.
- React's effect scheduling and state batching: each guess is one atomic step (the handler, then the end-of-round effect).
- `hiddenWord` is not a stored field. After the effects run it always equals `Reveal(word, guessedLetters)`, which `App.Game.HiddenWord` returns.
- `Words.ToLower`: models `toLowerCase` on ASCII letters only. Every word in the list is ASCII.
- `App.Game.constructor`: models mounting with the corrected check (see Findings). As written, mounting ends the round with a win before any guess.
- The code keeps guessed letters as an ordered array, so the model uses a sequence, not a set.
- The code does not reject non-letter input, and it creates no session from an empty word list: the list is a fixed non-empty constant. The model follows the code.
- A restart mutates the one component instead of creating a new session. The model follows the code here too.
