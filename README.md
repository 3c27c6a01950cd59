# Russian–Latin flashcards: a verified model of the app's logic

This project models the logic of a small client-side flashcard and quiz
app for Russian–Latin vocabulary. The parts modelled are:

- **The dataset loader** (`Data`). It flattens a raw record keyed by
  lesson label ("Занятие 1", "Занятие 2", …) into one card list and a
  list of deck summaries.
  - Lessons are taken in the order of the numeral in their label.
  - Only a lesson's "Лексика" array is read.
  - An entry becomes a card only when both its Russian and Latin texts are
    non-empty.
  - The cards are numbered 1, 2, 3, … across all lessons.
  - A lesson gets a deck only when it yields at least one card.
- **The two index queries** (`Data`): the cards of a lesson, and the card
  with a given global number.
- **The quiz generator** (`QuizGen`).
  - It shuffles a lesson's cards and takes up to 30 of them.
  - For each card it draws up to three distractor answers, from the lesson
    when it has more than 10 cards and from the whole catalog otherwise.
  - It shuffles the options and records where the right answer landed.
- **The quiz page's session** (`QuizSession`): answering once per
  question, scoring, moving on or finishing, the reset, the closing message,
  and the "proverbs" route sentinel.
- **The card player page** (`Player`).
  - Choosing the deck: proverbs, every card, or one lesson.
  - Moving forwards and backwards with wrap-around, and flipping the card.
  - The keyboard bindings.
  - Jumping to a card by its number, with the page's Russian error messages.
- **The shared route helper** (`Routes`): the health-check path, and
  filling `:name` placeholders in a URL template.

How the model is built:

- Shuffling by a random comparator is modelled as an arbitrary permutation
  chosen nondeterministically. Nothing is claimed about its distribution.
- The JSON import, integer parsing of route and input text, and
  `Math.random` become parameters or nondeterministic choices.
- The loader, the quiz generator, the player's search and the URL builder
  are methods with loops. Each is proved equal to a recursive specification
  function, or to satisfy a stated property.
- The two pages' state lives in classes, `QuizGame` and `CardPlayer`. Their
  methods state every field's new value and keep a `Valid()` invariant.

Files: `common.dfy` (`Option`, decimal numerals), `data.dfy`,
`quiz_gen.dfy`, `quiz_session.dfy`, `player.dfy`, `routes.dfy`.

The model follows what the code does, including three points that a reader
of its comments and types might not expect.

- Distractors are excluded by global index, not by Latin text. Two cards
  with the same Latin word can therefore give duplicate options, and the
  model allows this.
- The correct index is the first position holding the right text.
- The proverbs quiz gets no questions: `generateQuiz("proverbs")` matches
  no card's lesson.

## Model

| member | source | states |
|---|---|---|
| Common.DecimalRoundTrip | client/src/lib/data.ts:28-34 | Reading back the decimal spelling of a number gives the number |
| Common.OnlyDigits | client/src/lib/data.ts:28 | Deleting non-digits leaves only decimal digits and never lengthens the label; a text of digits comes back unchanged, and a text without digits gives the empty string |
| Common.OnlyDigitsAppend | client/src/lib/data.ts:28 | Deleting non-digits distributes over concatenation, so every digit is kept, in order |
| Data.KeyNumber | client/src/lib/data.ts:28-34 | A label without digits reads as 0 (see "## Left out"); its value for a real label is given by Data.KeyNumberOfLabel |
| Data.KeyNumberOfLabel | client/src/lib/data.ts:28-34 | A label whose only digits are the decimal spelling of n, such as "Занятие 12", carries numeral n |
| Data.SortIsSorted | client/src/lib/data.ts:27-31 | The sorted keys are in non-decreasing numeral order |
| Data.LabelsInNumericOrder | client/src/lib/data.ts:26-31 | After sorting, labels that differ only in their number are in numeric order: the smaller number comes first |
| Data.TenAfterTwo | client/src/lib/data.ts:26-31 | "Занятие 10" is sorted after "Занятие 2", not before it as text order would put it |
| Data.SortIsPermutation | client/src/lib/data.ts:27-31 | Sorting the keys neither loses nor duplicates a lesson |
| Data.SortIsStable | client/src/lib/data.ts:27-31 | For every numeral, the lessons carrying it keep their relative input order |
| Data.ValidEntriesAre | client/src/lib/data.ts:45 | An entry is kept if and only if both its `ru` and `la` are non-empty strings |
| Data.LessonCardsAt | client/src/lib/data.ts:44-53 | The i-th kept entry of a lesson becomes the card with that entry's two texts, the lesson's numeral and global index start + i |
| Data.PushLessonCards | client/src/lib/data.ts:44-54 | Walking a lesson's entries appends exactly that lesson's cards and advances the counter by the number appended |
| Data.ProcessData | client/src/lib/data.ts:19-71 | The loader's cards and decks equal the lesson-by-lesson specification applied to the keys in numeral order |
| Data.ProcessLesson | client/src/lib/data.ts:33-67 | One lesson's turn appends its cards numbered on from the counter, and a deck exactly when a card was added; afterwards the counter is again one past the card count |
| Data.ProcessDense | client/src/lib/data.ts:23-53 | Global indices are exactly 1..N in list order, with no gap or repeat, and every card has non-empty texts |
| Data.ProcessTiles | client/src/lib/data.ts:42-66 | Deck ranges start at 1, end at N and follow each other without gaps; each has count = end - start + 1 and holds only cards of its lesson |
| Data.ProcessDecks | client/src/lib/data.ts:39-66 | There is exactly one deck per lesson that yields a card, in processing order, titled with the key, numbered with its numeral and counting its valid entries |
| Data.DecksAscending | client/src/lib/data.ts:27-68 | Decks come out in ascending lesson-number order |
| Data.DeckCards | client/src/lib/data.ts:76-78 | A card is in a lesson's deck query if and only if it is in the catalog with that lesson number |
| Data.DeckCardsAppend | client/src/lib/data.ts:76-78 | The query distributes over concatenation, so it keeps catalog order |
| Data.DeckCardsNone | client/src/lib/data.ts:76-78 | An id no card carries gives an empty deck |
| Data.ProcessDeckCards | client/src/lib/data.ts:56-78 | With distinct lesson numbers, each deck's query returns exactly the slice of the catalog its range names |
| Data.LoadProperties | client/src/lib/data.ts:19-78 | The loaded catalog is densely numbered and tiled by its decks; with distinct lesson numbers, each deck query is its range and has count cards |
| Data.CardByGlobalIndex | client/src/lib/data.ts:80-82 | A hit is a catalog card with that index; the result is none if and only if no card has it |
| Data.LookupDense | client/src/lib/data.ts:80-82 | On a densely numbered list, index i finds the card at position i - 1 for 1 <= i <= N and nothing otherwise, including 0 and negatives |
| Data.LookupLoaded | client/src/lib/data.ts:80-82 | Lookup on the loaded catalog hits exactly the indices 1..N |
| QuizGen.Shuffle | client/src/lib/data.ts:96 | A shuffle returns a permutation of its input |
| QuizGen.Others | client/src/lib/data.ts:105 | The candidates are the pool's cards whose global index differs from the question's card |
| QuizGen.OthersCount | client/src/lib/data.ts:104-105 | With unique indices and the card in the pool, exactly one card is excluded |
| QuizGen.IndexOf | client/src/lib/data.ts:111 | The result is -1 if and only if the text is absent, and otherwise its first position |
| QuizGen.MakeQuestion | client/src/lib/data.ts:102-117 | A question holds its card and min(3, candidates) distractor answers drawn from distinct candidates, plus the right answer; the options are a permutation of these and the index marks the first occurrence of the right answer |
| QuizGen.AskAll | client/src/lib/data.ts:99-118 | There is one question per selected card, in order, each well formed over the pool |
| QuizGen.GenerateQuiz | client/src/lib/data.ts:91-119 | An empty lesson gives no questions; otherwise there are min(k, n) questions whose cards are drawn without repetition from the lesson, each well formed over the size-dependent distractor pool |
| QuizGen.QuizOnUniqueCatalog | client/src/lib/data.ts:92-111 | Over uniquely numbered cards, the questions' cards are pairwise distinct lesson members and each question has min(3, pool - 1) + 1 options |
| QuizGen.FourOptionsWhenPoolLarge | client/src/lib/data.ts:102-110 | Over the loaded catalog, a distractor pool of four or more cards gives every question exactly four options |
| QuizSession.RouteQuizId | client/src/pages/quiz.tsx:12 | The id "proverbs", and only that id, maps to the sentinel; any other id carries its integer reading |
| QuizSession.QuizForRoute | client/src/pages/quiz.tsx:12-19 | The sentinel and an unparsable id give no questions; a lesson number gives a default-size quiz for that lesson |
| QuizSession.MessageThresholds | client/src/pages/quiz.tsx:72-75 | "Outstanding!" if and only if 200·score >= 179·total; "Well done!" if and only if 139·total <= 200·score < 179·total; otherwise "Good effort!" |
| QuizSession.PercentageBounds | client/src/pages/quiz.tsx:72 | The rounded percentage lies in 0..100; it is 100 if and only if 200·score >= 199·total, and a full score gives 100 |
| QuizSession.MessageMonotonic | client/src/pages/quiz.tsx:72-75 | A higher score never gives a lesser message |
| QuizSession.FinishedSummary | client/src/pages/quiz.tsx:72-75 | A full score always reads "Outstanding!" |
| QuizSession.QuizGame.constructor | client/src/pages/quiz.tsx:19-23 | A new session starts at question 0 with no choice, score 0 and not finished |
| QuizSession.QuizGame.Reset | client/src/pages/quiz.tsx:26-31 | A new question set puts the session back to question 0, no choice, score 0, not finished |
| QuizSession.QuizGame.HandleOptionClick | client/src/pages/quiz.tsx:35-50 | Once a choice is made, clicks change nothing; otherwise the choice is recorded and the score rises by 1 exactly when it is the correct option; the invariant score <= index + answered <= length is kept |
| QuizSession.QuizGame.HandleNext | client/src/pages/quiz.tsx:52-65 | Before the last question it advances the index and clears the choice; on the last it sets finished and keeps index, choice and score |
| QuizSession.QuizGame.Message | client/src/pages/quiz.tsx:71-75 | When finished, the score is out of a non-empty set, and the message is fixed by the rounding thresholds |
| Player.SelectMode | client/src/pages/player.tsx:14-16 | Proverbs if and only if the path is /proverbs; every card if and only if not proverbs and the lesson id is missing or zero; otherwise that lesson |
| Player.DeckFor | client/src/hooks/use-flashcards.ts:12-16 | Proverbs mode plays the proverbs and every-card mode the whole catalog; lesson mode plays exactly that lesson's cards |
| Player.NavigationRoundTrip | client/src/pages/player.tsx:54-66 | Next and previous stay in [0, len), step one place around the circle, and undo each other |
| Player.FindIndexByGlobal | client/src/pages/player.tsx:90 | The first position whose card has the target global index, or -1 if and only if there is none |
| Player.GlobalJumpTarget | client/src/pages/player.tsx:89-97 | In every-card mode over the loaded catalog, a jump to t finds a card if and only if 1 <= t <= N, and lands on position t - 1 |
| Player.CardPlayer.constructor | client/src/pages/player.tsx:23-26 | The player starts at the first card, face up, with an empty field and no error |
| Player.CardPlayer.NextCard | client/src/pages/player.tsx:54-59 | The card is turned face up and the index moves to (i + 1) mod len |
| Player.CardPlayer.PrevCard | client/src/pages/player.tsx:61-66 | The card is turned face up and the index moves to (i - 1 + len) mod len |
| Player.CardPlayer.ToggleFlip | client/src/pages/player.tsx:43-46 | The flip flag is inverted and nothing else changes |
| Player.CardPlayer.HandleKey | client/src/pages/player.tsx:32-48 | Right arrow and space move on, left arrow moves back, up and down arrows flip; in an input field, or for any other key, nothing changes |
| Player.CardPlayer.SetJumpInput | client/src/pages/player.tsx:206 | Typing sets the field and changes nothing else |
| Player.CardPlayer.HandleJump | client/src/pages/player.tsx:68-108 | A non-number sets "Введите число" and keeps the position. In proverbs mode, 1 <= t <= len goes to t - 1, face up, with the field cleared, and otherwise sets the range error. In other modes the jump goes to the first card with that global index, or sets the mode's not-found error and keeps the position |
| Routes.FindFirst | shared/routes.ts:20 | The result is -1 if and only if the pattern does not occur, and otherwise its first occurrence |
| Routes.ReplaceFirst | shared/routes.ts:21 | The first occurrence is replaced and the text around it is kept; with no occurrence the text is unchanged |
| Routes.BuildUrl | shared/routes.ts:16-26 | With no params the path comes back as is; otherwise each param in turn replaces the first `:key` in the URL built so far |
| Routes.FillFirstPlaceholder | shared/routes.ts:20-22 | A placeholder at the first ':' is replaced by the value's string, and everything around it is kept |
| Routes.NoColonUnchanged | shared/routes.ts:19-23 | A path with no ':' is returned unchanged whatever the params |
| Routes.HealthUrl | shared/routes.ts:5-13 | The health path "/api/health" has no placeholder, so building it returns it unchanged |
| Routes.OrderMatters | shared/routes.ts:19-23 | Substitution is sequential. A value ":k2" put in for ":k1" is filled by a later k2 entry but not by an earlier one, so swapping the two entries gives a different URL |

## Left out

- Data.KeyNumber: a label with no digits gets numeral 0. In the source, `parseInt("")` is NaN, which makes the sort comparator inconsistent and the lesson number NaN; the model does not capture that.
- Key order of the raw record: JavaScript lists integer-like keys first. The model takes the record as an already ordered sequence of (label, value) pairs, and the sort that follows is stable.
- `null` or `undefined` entries make the source throw; the model does not capture that. Other non-object entries have no `ru` or `la` field and are skipped, as `RawEntry(None, None)` is. Fields holding a truthy non-string are not modelled: a field is either a string or absent.
- QuizSession.Percentage: `Math.round` of a floating-point quotient is computed on exact rationals, with halves rounding up. Float rounding error is not modelled.
- QuizGen.GenerateQuiz: `questionCount` is a natural number. Negative or fractional counts, which `Math.min` and `slice` would accept, are not modelled.
- QuizGen.Shuffle: the random comparator is modelled as an arbitrary permutation. Nothing says how likely each order is, and the comparator's inconsistency inside the engine's sort is not modelled.
- Player.CardPlayer.NextCard and Player.CardPlayer.HandleKey: they require a non-empty deck (HandleKey only for the move keys). On an empty deck the source computes NaN, and the page shows only its loading text.
- Player.CardPlayer.PrevCard: it requires a non-empty deck, for the same reason.
- Player.DeckFor: the proverbs deck is a parameter. The hook the page imports for it is not defined in the hooks file, and the loader has no proverbs.
- Confetti, the 200 ms `setTimeout` before the index moves (taken as immediate), the keydown listener registration, `window.location.reload`, `Link`/`setLocation` navigation, and all rendering are left out.
- Player.CardPlayer.HandleJump and QuizSession.RouteQuizId: `parseInt`'s reading of text is not modelled. They take its integer result, or None for NaN.
- QuizSession.QuizGame.HandleNext: it requires an answered question, because the Next button is only rendered after a choice (client/src/pages/quiz.tsx:207).
- QuizSession.QuizGame.HandleOptionClick: it requires a question to exist, because option buttons are only rendered for a current question.
- Routes.BuildUrl and Routes.ReplaceFirst: the value is inserted literally. The `$&`, `$$`, `` $` `` and `$'` patterns that `String.prototype.replace` expands in a replacement string are not modelled.
- Routes.ValueString: numbers are integers. `String()` of fractional or special numbers is not modelled.
- Routes.BuildUrl: the params are an ordered sequence of entries. The ordering that `Object.entries` imposes on integer-like keys is not modelled.
- `api.health`'s method and zod response schema are library values and are not modelled; only its path is.
