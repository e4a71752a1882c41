# Math drill: question generator, round and session, in Dafny

This project models the logic of a browser arithmetic drill. A player picks an operation
(addition, subtraction, multiplication or division) and a times table (0 to 9, or "mix").
They then answer as many generated questions as they can in 15 seconds, typing digits on
an on-screen keypad. The session compares the score with a high score kept in the browser's
key-value store and shows both.

Modules, one per source file, plus three helpers:

- `GameView` (`GameView.dfy`, for `src/app/views/GameView.tsx`):
  - `GenerateQuestion` is the question generator. Its random draws are passed in.
  - `FormatTime` is the clock text.
  - `NextQuestion` is the redraw loop of confirm.
  - class `Round` holds the round state: `timeLeft`, `currentAnswer`, `score` and
    `currentQuestion`. Its methods are the keypad, backspace, confirm and timer handlers.
- `Home` (`Home.dfy`, for `src/app/page.tsx`): class `Session` holds:
  - the screen state (`setup → playing → finished → setup`) and both selections;
  - the high-score storage key;
  - the read, compare and write of the high score when a round ends;
  - the reset.
  The browser store is the field `store: map<string, string>`.
- `JsText` holds the JavaScript built-ins the two files use on integers: `parseInt(s, radix)`,
  `toString()`, `padStart(2, '0')` and the truncating `%`.
- `Numerals` holds digit strings and their values in a radix. `Wrappers` holds `Option`.

Randomness is injected. `randomInt(min, max)` computes `floor(random * (max - min + 1)) + min`.
A `Draw` holds the three offsets `floor(random * (max - min + 1))` that one call of the
generator may draw:
- the operation index, 0..3 (mix only);
- the table offset, 0..8 (mix only);
- the operand offset, 0..10 for subtraction and 0..9 otherwise.

`DrawFits` states these ranges, and the generator is a total function of its inputs and one
`Draw`. Confirm receives its redraws as a sequence `draws`. It requires that some draw in it
gives a text different from the current question's, which is what the source's `while` loop
needs in order to stop. `FreshQuestionExists` proves that such a draw always exists.

The timer is the explicit method `Tick`. Each call is one run of the timer effect. At or
below zero seconds it reports the score. Otherwise its one-second interval fires once and
takes a second off. The interval is cleared whenever `timeLeft` changes, so one effect run
never decrements twice.

The high score is read with `parseInt(..., 3)` and written as a decimal string, and the model
keeps this as written:
- A written score of 0, 1 or 2 reads back unchanged (`SmallScoreReadsBack`).
- A score whose first decimal digit is 3 or more reads back as NaN (`LargeLeadingDigitReadsNaN`).
  No later score beats NaN, so that key is never written again (`NonTernaryTextReadsNaN`).
- Every written score reads back as NaN or as no more than the score (`ScoreReadsBackNoHigher`).
- A score of 10 or more whose first decimal digit is 1 or 2 reads back as a smaller number
  (`ScoreReadsBackLower`). So the same score, or a lower one, rewrites the key at the next
  round end. For example, "12" reads as 5, so a later score of 6 replaces it (`TwelveReadsAsFive`).

The high score shown after a round is `Option<int>`, with `None` for NaN, because the page
shows the NaN it read.

Some facts about the code that a reader might expect otherwise:
- Mix draws the table from 1..9; table 10 is never drawn.
- A stored value that does not parse reads as NaN, not as 0, and then blocks every update.
- The storage key is `highscore_mix` or `highscore_<op>`. Neither the table number nor any
  other setting is part of it.
- These files have no streaks, square roots, equation mode or locked feedback after a wrong
  answer. A wrong answer simply moves on to the next question.

Each session handler is called from one screen only, and its precondition says which:
- the selections and the start are on the setup screen;
- the round end comes from the playing screen's timer;
- the reset is on the results screen.
So the screens follow the cycle setup → playing → finished → setup. Once setup is left,
both selections are present (`Session.Valid`).

## Model

| member | source | states |
|---|---|---|
| GameView.RandomInt | src/app/views/GameView.tsx:25-27 | a drawn offset within the width of the range gives a value between `min` and `max` inclusive |
| GameView.FormatTime | src/app/views/GameView.tsx:20-24 | the clock text: floored minutes and the truncating remainder of the seconds, each padded to two characters; `FormatTimeReadsBack` states what it shows |
| GameView.FormatTimeReadsBack | src/app/views/GameView.tsx:20-24 | for 0 ≤ s < 6000 the clock text has 5 characters with ':' in the middle, two-digit minutes and seconds, seconds below 60, and minutes·60 + seconds = s |
| GameView.Effective | src/app/views/GameView.tsx:46-57 | the operation and table a question uses: drawn in mix mode, and multiplication for division by table 0; `MixChoice`, `FixedTableChoice` and `NoZeroDivisor` state its behaviour |
| GameView.Compose | src/app/views/GameView.tsx:59-97 | the switch that builds the text and the answer from the effective operation, table and operand offset; the four per-operation lemmas state its behaviour |
| GameView.GenerateQuestion | src/app/views/GameView.tsx:45-99 | `generateQuestion` with its draws given; the lemmas below and `AnswerFitsKeypad` state its behaviour |
| GameView.MixChoice | src/app/views/GameView.tsx:49-53 | in mix mode the operation is the picked one of add, sub, mult, div, and the table lies in 1..9 |
| GameView.FixedTableChoice | src/app/views/GameView.tsx:55-57 | with a fixed table the table is used as chosen, and the operation changes only for division by table 0, which becomes multiplication |
| GameView.NoZeroDivisor | src/app/views/GameView.tsx:82-86 | whatever the selection and draw, division always runs with a non-zero table, so the branch for divisor 0 is never taken |
| GameView.AdditionQuestion | src/app/views/GameView.tsx:62-67 | addition with table t asks "t + n =" with n in 1..10 and expects t + n |
| GameView.SubtractionQuestion | src/app/views/GameView.tsx:68-73 | subtraction with table t asks "m - t =" with the minuend m in t..t+10, so the answer lies in 0..10 |
| GameView.MultiplicationQuestion | src/app/views/GameView.tsx:74-79 | multiplication with table t asks "t x n =" with n in 1..10 and expects t·n |
| GameView.DivisionQuestion | src/app/views/GameView.tsx:87-92 | division has a non-zero divisor t and asks "t·r ÷ t =" with r in 1..10 as the answer, so the dividend is an exact multiple of t |
| GameView.TableZeroDivision | src/app/views/GameView.tsx:55-57 | division by table 0 asks "0 x n =" with n in 1..10 and answer 0 |
| GameView.AnswerFitsKeypad | src/app/views/GameView.tsx:59-97 | with a table the setup screen offers, every answer lies in 0..90, and its decimal text is a valid four-digit answer buffer, so every question can be answered on the keypad |
| GameView.TwoDistinctQuestions | src/app/views/GameView.tsx:45-99 | for every selection, the draws with operand offsets 0 and 1 (other offsets 0) both fit and give different question texts |
| GameView.FreshQuestionExists | src/app/views/GameView.tsx:153-156 | whatever the previous text, some valid draw gives a question with a different text, so the redraw loop can stop |
| GameView.NextQuestion | src/app/views/GameView.tsx:152-156 | the redraw loop returns the question of the first draw whose text differs from the previous text; every earlier draw repeated the previous text |
| GameView.PressedDigit | src/app/views/GameView.tsx:128-132 | a digit is appended exactly when fewer than four are typed, otherwise the buffer is unchanged |
| GameView.Backspaced | src/app/views/GameView.tsx:133-135 | backspace removes exactly the last character and leaves an empty buffer empty |
| GameView.KeysKeepBuffer | src/app/views/GameView.tsx:128-135 | both keys keep the buffer a string of at most four decimal digits |
| GameView.BackspaceUndoesDigit | src/app/views/GameView.tsx:128-135 | backspace after an accepted digit restores the previous buffer |
| JsText.ParseInt | src/app/views/GameView.tsx:142 | `parseInt(s, radix)`: skip leading white space and one sign, read the longest run of radix digits, NaN when there is none; `ParseIntOfDigits` and `ParseIntFirstChar` state its behaviour |
| JsText.ParseIntOfDigits | src/app/views/GameView.tsx:142 | a non-empty string of radix digits parses to the number it denotes in that radix |
| JsText.ParseIntFirstChar | src/app/page.tsx:33 | a string starting with neither white space nor a sign parses to a number exactly when its first character is a digit of the radix |
| GameView.CorrectMeansDecimalValue | src/app/views/GameView.tsx:142-144 | for a non-empty digit buffer, `parseInt(buffer, 10)` equals the answer exactly when the buffer's decimal value equals it |
| GameView.Round.constructor | src/app/views/GameView.tsx:36-42 | a new round has the given time, an empty buffer, score 0 and a freshly generated question |
| GameView.Round.PressDigit | src/app/views/GameView.tsx:128-132 | the buffer becomes the pressed-digit buffer, and time, score and question are unchanged |
| GameView.Round.Backspace | src/app/views/GameView.tsx:133-135 | the buffer loses its last character, and time, score and question are unchanged |
| GameView.Round.Confirm | src/app/views/GameView.tsx:139-160 | on an empty buffer nothing changes; otherwise the score rises by 1 exactly when the buffer's decimal value is the answer, the buffer is cleared, and the new question is the first draw whose text differs from the old one |
| GameView.Round.Tick | src/app/views/GameView.tsx:103-113 | at timeLeft ≤ 0 it reports the current score and changes nothing; otherwise it takes exactly one second off and reports nothing |
| Home.StorageKey | src/app/page.tsx:20-24 | every key starts with "highscore_", and the key is "highscore_mix" exactly when mix is selected |
| Home.KeyIgnoresTableNumber | src/app/page.tsx:20-24 | the storage key is the same for every table number and for no table, so the table never appears in the key |
| Home.KeysSeparateModes | src/app/page.tsx:20-24 | outside mix, two operations share a key exactly when they are equal, no operation's key is the mix key, and no operation selected counts as addition |
| Home.StoredText | src/app/page.tsx:33 | the stored value, or "0" when there is none or it is empty; `NothingStoredReadsZero` states the fallback |
| Home.ReadHighScore | src/app/page.tsx:33 | the old high score is the stored text parsed in radix 3; the lemmas below state what it gives for each kind of stored text |
| Home.Beats | src/app/page.tsx:36 | `score > oldHighScore`, false when the old high score is NaN; `NonTernaryTextReadsNaN` and `ScoreReadsBackLower` state when it holds |
| Home.NothingStoredReadsZero | src/app/page.tsx:33 | with no stored value, or an empty one, the old high score reads as 0 |
| Home.NonTernaryTextReadsNaN | src/app/page.tsx:33-36 | a stored text starting with anything but 0-2, white space or a sign reads as NaN, and no score beats it |
| Home.SmallScoreReadsBack | src/app/page.tsx:33-37 | a written score of 0, 1 or 2 reads back as itself |
| Home.LargeLeadingDigitReadsNaN | src/app/page.tsx:33-37 | a written score whose first decimal digit is 3 or more reads back as NaN |
| Home.ScoreReadsBackNoHigher | src/app/page.tsx:33-37 | a written score reads back in radix 3 as NaN or as a value between 0 and the score |
| Home.ScoreReadsBackLower | src/app/page.tsx:33-38 | a written score of 10 or more whose first decimal digit is 1 or 2 reads back as a smaller number, which the same score beats |
| Home.TwelveReadsAsFive | src/app/page.tsx:33-38 | a stored "12" reads as 5, so a score of 6 beats it |
| Home.Session.constructor | src/app/page.tsx:11-24 | the session starts on setup with no selections, both scores 0 and the key "highscore_add" |
| Home.Session.SelectOperation | src/app/page.tsx:11-24 | on the setup screen, choosing an operation sets it and re-derives the key; nothing else changes |
| Home.Session.SelectTable | src/app/page.tsx:12-24 | on the setup screen, choosing a table sets it and re-derives the key; nothing else changes |
| Home.Session.StartGame | src/app/page.tsx:26-30 | from the setup screen the game moves to playing exactly when both an operation and a table (0 included) are selected, and stays on setup otherwise |
| Home.Session.MountRound | src/app/page.tsx:66-74 | the playing screen gets a 15-second round over the selected operation and table |
| Home.Session.TimeUp | src/app/page.tsx:32-44 | from the playing screen the game is finished with the given score; only a score beating the old high score writes its decimal string under the key and is reported, otherwise the store is untouched and the old value (possibly NaN) is reported |
| Home.Session.ResetGame | src/app/page.tsx:46-52 | from the results screen, back to setup with no selections and both scores 0; the store is unchanged |

## Left out

- Rendering, styling, icons and the keypad layout are left out. The setup screen, the results
  screen and the streak indicator are presentation only. The setup screen's start guard repeats
  the one in `StartGame`.
- The progress bar (`GameView.tsx:116-119`) is left out: it is floating point and display only.
- `Math.random` is replaced by injected integer offsets.
- The timing of `setInterval` and `useEffect` is left out. React's rendering order, and the
  restart of the interval when the score changes, only shift when a tick happens.
- `console.log` calls are left out.
- `localStorage` as a browser API is modelled as a plain map. Its exceptions (storage disabled,
  quota exceeded) are not modelled.
- The `default` branch of the switch (`GameView.tsx:94-96`) cannot be written: the operation
  datatype has exactly four cases.
- The state before the mount effects run is not modelled. That is the placeholder question
  `{text: "", answer: 0}` and the key `highscore_default`. No handler can run before those
  effects replace them.
- The table number is a natural number. The setup screen offers only 0..9, so other numbers
  never reach the generator.
- `parseInt` reads numbers exactly. The floating-point rounding of very long digit strings,
  `-0`, and the "0x" prefix that radix 16 strips are not modelled.
- GameView.Round.Tick: the report that follows the last decrement comes from the next call,
  not from the immediate re-run of the effect that React performs.
- JsText.TrimStart: its contract says that the result has no leading white space and is the
  input when the input has none. It does not say that the result is a suffix of the input.
- JsText.JsRemainder: its contract gives only the range and sign of the remainder.
