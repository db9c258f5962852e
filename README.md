# Marathi learning worksheets: game rules in Dafny

This project models the game logic of a children's Marathi-learning web application. It covers:

- **The letter catalog.** There are 12 vowels (swar), 36 consonants (vyanjan), the numerals zero to ten (ankh) and 15 letter–picture matching pairs.
- **The shared Fisher–Yates shuffle.** Every worksheet carries its own copy of it.
- **Five worksheets:**
  - letter–picture matching;
  - fill in the blank;
  - letter identification quiz;
  - counting;
  - picture match.
- **The tracing canvas.**
- **The choice of a Marathi speech voice**, with its module-level cache.

**How randomness is modelled.** `Math.random` is replaced by a supplied stream of draws. `ValidRolls(rolls, n)` says the stream has at least `n` draws and that draw `i` lies in `0..i`. The shuffle loop uses draw `i` where the code computes `Math.floor(Math.random() * (i + 1))`.

**How the components are modelled.**
- Each React component with state is a class. Its `useState` variables are fields, and each handler is a method that updates them atomically.
- Each class has a `Valid()` invariant that every method preserves.
- A delayed step scheduled with `setTimeout` is an explicit method (`Advance`).
- Question generation is pure. It is written as functions with named results, whose contracts state what the questions guarantee:
  - the answer is among the options;
  - the options are pairwise distinct;
  - the targets differ;
  - the wrong options differ from the answer;
  - the options are a permutation.

Modules, one file each:
- `Seqs`: distinctness, filtering and counting facts.
- `Shuffle`: the swap loop on an array, and the function it is proved against.
- `Letters`: the catalog.
- `Matching`, `FillBlanks`, `Quiz`, `Counting`, `Picture`: the worksheets.
- `Tracing`: the canvas.
- `Speech`: voice choice.
- `Wrappers`: `Option`.

## Model

| member | source | states |
|---|---|---|
| Letters.CatalogShape | src/data/marathiLetters.ts:11-97 | 12 vowels, 36 consonants, 11 numerals and 15 pairs; allLetters is exactly the vowels followed by the consonants |
| Letters.AllLettersDistinct | src/data/marathiLetters.ts:11-78 | no two entries of allLetters share a letter string |
| Letters.LetterDeterminesEntry | src/data/marathiLetters.ts:11-97 | within allLetters, a letter string identifies its whole entry |
| Letters.AnkhValues | src/data/marathiLetters.ts:82-94 | 11 numerals, and numeral i has value i |
| Letters.MatchingPairsDistinct | src/data/marathiLetters.ts:106-121 | no two matching pairs share a letter or a picture |
| Letters.MatchingPairKeys | src/data/marathiLetters.ts:106-121 | among the pairs, a letter identifies its pair, and so does a picture |
| Letters.MatchingLettersInCatalog | src/data/marathiLetters.ts:106-121 | every pair's letter is the letter string of some allLetters entry |
| Shuffle.ShuffleArray | src/components/MatchingWorksheet.tsx:7-14 | the countdown swap loop on an array copy gives the shuffle function's result, a permutation of the input with the same length; the input sequence is a value and stays as it was |
| Shuffle.ShuffledIsPermutation | src/components/MatchingWorksheet.tsx:7-14 | the shuffle keeps every element with its multiplicity and keeps the length |
| Shuffle.ShufflePrefix | src/components/MatchingWorksheet.tsx:26 | shuffling and taking the first k elements gives the prefix function's result |
| Shuffle.ShuffledPrefixSelects | src/components/PictureMatch.tsx:42 | a prefix of a shuffle takes its elements from the input and has no repeats when the input has none |
| Shuffle.ShuffledOptionsHold | src/components/IdentificationQuiz.tsx:26 | shuffling the answer in front of the wrong options gives one more option than there are wrong ones: the answer, every wrong option and nothing else, with no repeats when the answer is not among the wrong options |
| Matching.DealFrom | src/components/MatchingWorksheet.tsx:26 | six distinct pairs from the pool, with pairwise different letters and pictures |
| Matching.DealPairs | src/components/MatchingWorksheet.tsx:26 | the dealt game has six distinct pairs with six distinct letters, keyed by letter and by picture |
| Matching.DealtFromCatalog | src/components/MatchingWorksheet.tsx:26 | every dealt pair is one of the catalog's matching pairs |
| Matching.PairLettersCard | src/components/MatchingWorksheet.tsx:63 | distinct pairs with pairwise different letters carry as many letters as there are pairs, so a full board has exactly six matches |
| Matching.MatchingWorksheet.constructor | src/components/MatchingWorksheet.tsx:25-38 | mounting deals the catalog's pairs and shows a permutation of them, with no matches, score 0, no selection and no celebration |
| Matching.MatchingWorksheet.InitializeGame | src/components/MatchingWorksheet.tsx:25-34 | six distinct pairs, the pictures a shuffle of them, matches empty, score 0, selection and wrong match cleared, celebration off; the invariant holds again |
| Matching.MatchingWorksheet.HandleLetterClick | src/components/MatchingWorksheet.tsx:40-44 | a letter already matched changes nothing; any other letter becomes the selection and the wrong match clears |
| Matching.MatchingWorksheet.HandleImageClick | src/components/MatchingWorksheet.tsx:46-71 | without a selection, or on a picture already matched, nothing changes. On the selected letter's own picture, exactly that entry is added, the letter was unmatched before, the score rises by 10, the selection clears, and the celebration shows exactly when all pairs are matched. On any other picture, matches, score, selection and celebration are unchanged and the wrong match is that picture |
| Matching.MatchingWorksheet.DismissCelebration | src/components/MatchingWorksheet.tsx:100 | clicking the overlay hides the celebration and leaves the board as it is |
| Matching.MatchingWorksheet.MatchedImageNonEmpty | src/components/MatchingWorksheet.tsx:41 | a matched letter maps to a non-empty picture, so the truthiness test in handleLetterClick is the same as membership |
| Matching.MatchingWorksheet.MatchExtends | src/components/MatchingWorksheet.tsx:50-55 | matching a free letter of the board to its own free picture keeps the matches injective and pointing at their own pairs' pictures, and adds exactly one match |
| Matching.MatchingWorksheet.ScoreBounded | src/components/MatchingWorksheet.tsx:54 | at most six matches, and the score is between 0 and 60 |
| Matching.MatchingWorksheet.CelebrationMeansAllMatched | src/components/MatchingWorksheet.tsx:63-65 | the celebration shows only when every letter of the board is matched, and the board is fully matched exactly when there are six matches |
| FillBlanks.Remaining | src/components/FillInBlanks.tsx:30-32 | the not-yet-asked questions are at most as many as the bank |
| FillBlanks.PickQuestion | src/components/FillInBlanks.tsx:30-35 | the chosen question is in the bank, and its word has not been asked whenever some question remains |
| FillBlanks.RemainingNonEmpty | src/components/FillInBlanks.tsx:30-34 | some question remains exactly when some bank question's word has not been asked |
| FillBlanks.NothingAskedAllRemain | src/components/FillInBlanks.tsx:30-32 | with nothing asked, every question remains |
| FillBlanks.OptionsFrom | src/components/FillInBlanks.tsx:27-44 | four pairwise distinct options containing the correct letter; the other three come from the letter pool and differ from it |
| FillBlanks.AllLetterNamesDistinct | src/components/FillInBlanks.tsx:27 | the letter pool has 48 distinct letter strings |
| FillBlanks.AppendUnasked | src/components/FillInBlanks.tsx:48-50 | appending a question whose word was not asked keeps the asked words distinct |
| FillBlanks.AskedAtMostBank | src/components/FillInBlanks.tsx:48-50 | asked questions with distinct words, all from the bank, are at most as many as the bank |
| FillBlanks.NextAfterResetDiffers | src/components/FillInBlanks.tsx:30-35 | once only q has been asked, the next question has a different word whenever the bank has another word |
| FillBlanks.StaleResetRepeats | src/components/FillInBlanks.tsx:88-93 | a concrete bank for which the reset as written shows a question, records nothing, and the next question is the same one |
| FillBlanks.FillInBlanks.constructor | src/components/FillInBlanks.tsx:17-27 | no question yet, nothing asked or answered, counters at zero, letter pool from the catalog |
| FillBlanks.FillInBlanks.GenerateQuestion | src/components/FillInBlanks.tsx:29-51 | on mount and on nextQuestion alike, the question is the pick against the asked list, the options are built from its first blank's letter, the answer and verdict clear, and the question is appended to the asked list exactly when some question remained |
| FillBlanks.FillInBlanks.HandleAnswer | src/components/FillInBlanks.tsx:57-82 | ignored while an answer is showing or with no question; otherwise the answer is recorded, the count rises by one, the verdict is whether the letter equals the first blank's letter, the score rises by 10 only then, and the celebration starts exactly when that new score is a multiple of 50 |
| FillBlanks.FillInBlanks.ResetGame | src/components/FillInBlanks.tsx:88-93 | score and count back to 0; the asked list keeps only the freshly drawn question, which is drawn from the whole bank; answer cleared; the celebration flag is untouched |
| FillBlanks.FillInBlanks.ResetGameAsWritten | src/components/FillInBlanks.tsx:88-93 | the reset with the old asked list still seen by generateQuestion: the question is drawn against the old list, and it is recorded on the cleared list only when something remained against the old one |
| FillBlanks.FillInBlanks.AskedBounded | src/components/FillInBlanks.tsx:48-50 | the asked list never outgrows the bank |
| Quiz.QuestionFrom | src/components/IdentificationQuiz.tsx:22-28 | four options from the pool that include the answer; pairwise distinct, and with distinct letter strings, whenever the pool is |
| Quiz.QuestionFromPermutes | src/components/IdentificationQuiz.tsx:23-26 | the answer is the first shuffled letter, and the options are a permutation of the first four shuffled letters |
| Quiz.GenerateQuestion | src/components/IdentificationQuiz.tsx:22-28 | over allLetters: four catalog letters with distinct letter strings, one of them the answer |
| Quiz.OneCorrectOption | src/components/IdentificationQuiz.tsx:63 | among the options of a question, comparing letter strings accepts the answer and nothing else |
| Quiz.IdentificationQuiz.constructor | src/components/IdentificationQuiz.tsx:31-37 | a fresh question with nothing answered and all counters at zero |
| Quiz.IdentificationQuiz.HandleAnswer | src/components/IdentificationQuiz.tsx:57-77 | ignored once an answer is showing. Otherwise the count rises by one. A right answer raises score and streak by one, and the celebration starts exactly when the new streak is a multiple of 5. A wrong answer zeroes the streak. Among the options, right means exactly the answer's entry. The invariant streak ≤ score ≤ count is kept |
| Quiz.IdentificationQuiz.NextQuestion | src/components/IdentificationQuiz.tsx:79-83 | a fresh question, answer and verdict cleared, score, count and streak kept |
| Quiz.IdentificationQuiz.ResetQuiz | src/components/IdentificationQuiz.tsx:85-92 | a fresh question, answer cleared, score, count and streak zeroed |
| Counting.NumbersTable | src/components/CountingGame.tsx:6-16 | nine cards; card i has value i + 1 and shows value copies of one picture |
| Counting.NumbersDistinct | src/components/CountingGame.tsx:6-16 | the card values are pairwise distinct |
| Counting.WrongFrom | src/components/CountingGame.tsx:53-55 | three wrong options from the table, with distinct values all different from the answer's |
| Counting.WrongOptionsSmall | src/components/CountingGame.tsx:53-55 | the wrong options are not random: for an answer outside one to three they are exactly the table's first three numbers (one, two, three); for an answer from one to three they are exactly the first four numbers without the answer, in table order. They never carry the answer's value |
| Counting.WrongFromCounted | src/components/CountingGame.tsx:53-55 | for any pool opening with the values one to four, the same exact description of the wrong options |
| Counting.WrongFromExact | src/components/CountingGame.tsx:53-55 | for any pool of distinct values, the wrong options are the first three entries when none of them has the answer's value, and the first four without the one holding it otherwise |
| Counting.MakeQuestion | src/components/CountingGame.tsx:52-58 | four options with distinct values, one of them the answer and the rest other table values |
| Counting.Picks | src/components/CountingGame.tsx:52 | five table entries with pairwise distinct values |
| Counting.QuestionsFrom | src/components/CountingGame.tsx:51-59 | five well-formed questions whose answers have pairwise distinct values |
| Counting.GenerateQuestions | src/components/CountingGame.tsx:51-59 | over the table, a well-formed round of five questions |
| Counting.CountingGame.constructor | src/components/CountingGame.tsx:44-49 | a generated round with the first question showing, nothing answered, score 0 and no celebration |
| Counting.CountingGame.HandleAnswer | src/components/CountingGame.tsx:68-79 | ignored while an answer is recorded; otherwise the answer and the verdict (value equals the answer's value) are recorded, and the score rises by 10 only when right |
| Counting.CountingGame.Advance | src/components/CountingGame.tsx:80-88 | before the last question, move to the next one and clear the answer; on the last one, start the celebration and keep the answer locked; the index stays in range |
| Counting.CountingGame.ResetGame | src/components/CountingGame.tsx:91-98 | fresh questions, index 0, score 0, answer cleared, celebration off |
| Counting.CountingGame.ScoreBounded | src/components/CountingGame.tsx:76 | the score stays between 0 and 50 |
| Picture.WrongFor | src/components/PictureMatch.tsx:43-45 | three distinct pool letters, none with the target's letter string |
| Picture.QuestionFor | src/components/PictureMatch.tsx:43-47 | a question about the target with four options from the pool and distinct letter strings, the target among them |
| Picture.PicksHold | src/components/PictureMatch.tsx:42 | the first k letters of a shuffled pool come from the pool and have distinct letter strings |
| Picture.QuestionsFrom | src/components/PictureMatch.tsx:40-49 | eight well-formed questions whose targets have pairwise distinct letter strings, all from the pool |
| Picture.GenerateQuestions | src/components/PictureMatch.tsx:40-49 | over the vowels and consonants, a well-formed round of eight questions |
| Picture.PictureMatch.constructor | src/components/PictureMatch.tsx:33-38 | a generated round with the first question showing, nothing answered, score 0 and no celebration |
| Picture.PictureMatch.HandleAnswer | src/components/PictureMatch.tsx:58-69 | ignored while an answer is recorded; otherwise the letter string and the verdict are recorded, the score rises by 10 only when right, and among the options right means exactly the target entry |
| Picture.PictureMatch.Advance | src/components/PictureMatch.tsx:70-78 | before the last question, move on and clear the answer; on the last one, start the celebration with the answer kept; the index stays in range |
| Picture.PictureMatch.ResetGame | src/components/PictureMatch.tsx:81-88 | fresh questions, index 0, score 0, no answer, no celebration |
| Picture.PictureMatch.ScoreBounded | src/components/PictureMatch.tsx:66 | the score stays between 0 and 80 |
| Tracing.TracingCanvas.constructor | src/components/TracingCanvas.tsx:20-55 | idle, no last point, the first palette colour, picker closed, nothing painted, and the guide painted when the canvas and its context exist |
| Tracing.TracingCanvas.DrawGuideLetter | src/components/TracingCanvas.tsx:27-51 | without canvas or context nothing changes; otherwise the canvas shows the guide letter and no segments |
| Tracing.TracingCanvas.StartDrawing | src/components/TracingCanvas.tsx:79-86 | with a canvas, drawing starts at the event's point wherever it is, with no proximity test; without one nothing changes |
| Tracing.TracingCanvas.Draw | src/components/TracingCanvas.tsx:88-109 | unless drawing with a canvas and a context, nothing changes; otherwise exactly one segment from the last point to the event's point, in the current colour and width 14, is appended and the event's point becomes the last point; segments of a stroke stay chained end to start |
| Tracing.TracingCanvas.StopDrawing | src/components/TracingCanvas.tsx:111-114 | idle with no last point; a last point is held exactly while drawing |
| Tracing.TracingCanvas.ClearCanvas | src/components/TracingCanvas.tsx:116-118 | the guide is repainted and every segment is discarded; the stroke state and colour are untouched |
| Tracing.TracingCanvas.TogglePicker | src/components/TracingCanvas.tsx:167 | the picker opens or closes |
| Tracing.TracingCanvas.SelectColor | src/components/TracingCanvas.tsx:182-186 | the colour becomes the chosen value of the six-colour palette and the picker closes; painted segments keep their colours |
| Tracing.TracingCanvas.ChangeLetter | src/components/TracingCanvas.tsx:51-55 | a new letter repaints the guide with that letter and discards the segments |
| Speech.ContainsIff | src/lib/marathiSpeech.ts:20 | the substring test holds exactly when the pattern occurs at some position |
| Speech.FindFirst | src/lib/marathiSpeech.ts:27-29 | find gives the element at the first position that passes, and nothing exactly when no position passes |
| Speech.FindInFilter | src/lib/marathiSpeech.ts:19-29 | finding in a filtered list is finding what passes both tests in the whole list |
| Speech.FirstOfFilter | src/lib/marathiSpeech.ts:32-34 | the first element of a filtered list is the first element of the list that passes the filter |
| Speech.SelectVoice | src/lib/marathiSpeech.ts:19-45 | the filter-then-find search returns, when it returns a voice, a voice of the list whose language is Marathi or Hindi |
| Speech.SelectVoiceIsPreferred | src/lib/marathiSpeech.ts:19-45 | the code's filter-then-find search makes exactly the four-tier choice: first female Marathi voice, else first Marathi voice, else first female Hindi voice, else first Hindi voice, else none |
| Speech.SelectVoiceSpec | src/lib/marathiSpeech.ts:19-47 | the result is a voice of the list, and it is none exactly when no voice is Marathi or Hindi. When a Marathi voice exists the result is Marathi, and female whenever a female Marathi voice exists. Otherwise it is Hindi, and female whenever a female Hindi voice exists |
| Speech.VoiceCache.constructor | src/lib/marathiSpeech.ts:3-4 | at module load nothing is cached and the voices are not loaded, so a voice is cached only along with the loaded mark |
| Speech.VoiceCache.GetMarathiVoice | src/lib/marathiSpeech.ts:7-50 | with a voice cached and voices loaded, that voice is returned and nothing changes. An empty list returns none and nothing changes. Otherwise the choice is returned and cached and voices are marked loaded. A cached none is not served from the cache. A voice stays cached only along with the loaded mark |

## Left out

- Rendering and animation are not modelled: JSX, framer-motion and CSS classes. The view-only components are not part of this model: WorksheetSection, Index, TracingSection, LetterCard, FlashCard, NumbersSection, LetterDetailModal and FloatingDecorations.
- Speech output is not modelled: `speechSynthesis.speak`, utterance rate and pitch, the `playPronunciation`/`speakMarathi`/`speakFeedback` calls, and `initVoices` with `onvoiceschanged` (src/lib/marathiSpeech.ts:53-70). The voice list is a parameter of `GetMarathiVoice`.
- Timers: the wrong-match flash reset, the celebration auto-hide in FillInBlanks and IdentificationQuiz, and the 1500 ms advance. The advance is the explicit `Advance` method, with no delay. A reset that lands between an answer and its scheduled advance is not modelled.
- Randomness: `Math.random` is replaced by supplied draw streams, so the model states what holds for every sequence of draws, not how likely any outcome is.
- Tracing.TracingCanvas.Coordinates: the floating-point scaling from client to canvas coordinates and the touch/mouse split are not modelled. Events arrive already in canvas coordinates.
- The canvas 2D API details are not modelled: fill, font, alpha, dash pattern, line cap and join. The canvas is the guide letter it shows plus the list of painted segments.
- The tracing canvas has no glyph hit-mask or proximity test in the code, so the model has none. `startDrawing` accepts any point.
- The quiz progress percentage (src/components/IdentificationQuiz.tsx:94) is left out, because it is floating-point division.
- The fill-in-the-blank question bank and its type, and the `emoji` field PictureMatch reads, are used but not defined in src/data/marathiLetters.ts. The bank becomes a constructor parameter of `FillInBlanks`, where each question has a word, a picture and a list of blanks. The missing `emoji` field only affects display, so it is not modelled.
- Handlers are atomic updates. React's batching of queued state, and handlers reading state captured at an earlier render, are not modelled, except for the FillInBlanks reset finding below.
- Speech.Lower: `toLowerCase` is modelled on the ASCII letters A to Z only. Other characters are unchanged, which covers language tags and the listed name patterns but not case mapping in other scripts.
- Matching.MatchingWorksheet.InitializeGame: states its deal as `DealFrom(catalog, …)`, not as `DealPairs`. The constructor fixes `catalog == MatchingPairs`, and `DealtFromCatalog` states the membership in the pair list.
- Before `useEffect` first fires, the worksheet renders once with empty pair lists. The constructor models the state after that effect.
- FillBlanks.ValidBank: the worksheet requires a non-empty bank in which every question has at least one blank. The code reads `question.blanks[0]` without a check, and its bank is constant data, so the model does not give the empty cases an error path.
- IdentificationQuiz and FillInBlanks set their celebration flag but never clear it except through the left-out timer. Their models keep the flag as an ordinary field.

## Findings

| source | as written | input that shows it | evidently intended | confidence | as-written member | corrected member |
|---|---|---|---|---|---|---|
| src/components/FillInBlanks.tsx:88-93 | resetGame queues `setQuestionsAsked([])` and then calls `generateQuestion`, which still sees the asked list from before the reset. The question is drawn against the old list, and it is recorded only when something remained against the old list | a bank of two questions with different words, both asked, draws [0, 0] for the reset and for the next question: the reset shows a question and records nothing, and the next question is the same one | the reset starts a fresh cycle: the question it shows is drawn from the whole bank and recorded, so the next one has another word | medium, not executed | FillBlanks.FillInBlanks.ResetGameAsWritten, FillBlanks.StaleResetRepeats | FillBlanks.FillInBlanks.ResetGame, FillBlanks.NextAfterResetDiffers |
