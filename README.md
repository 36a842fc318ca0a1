# Quiz session model

A Dafny model of a small children's quiz. The player walks a fixed list of ten questions of five kinds: multiple choice, true/false, ordering, matching and image choice. Each kind has its own answer rule. Every decision locks the screen, appends one entry to the history and adds 10 points when it is correct. A deferred step then clears the interaction state and moves to the next question. After the last question it reports the final score and history to the application, which shows a result screen with a score tier and one coloured dot per question.

Files:

- `types.dfy` (module `Types`): the question kinds, one `Question` constructor per kind, matching pairs, answers (a string or a boolean), the view and the application record.
- `constants.dfy` (module `Constants`): the eight praise messages and the ten authored questions, with lemmas that the content is well formed.
- `session.dfy` (module `Session`): the session state machine. The handlers and the deferred step are pure functions from state to state. These functions carry the invariant lemmas and whole-run lemmas. The class `GameScreen` holds the component's fields and updates them in place, and each of its methods is proved equal to the matching function. Its deferred step is the corrected one (see Findings).
- `app.dfy` (module `AppView`): the outer view machine as the class `App`, the result tier and the dot colours.

How the model maps the program:

- The random pick of a praise message becomes a parameter `rand` in [0, 1). The pick index is `Floor(rand * 8)`.
- The feedback timer becomes an explicit step (`TimerStep`, method `GameScreen.Advance`). The callback's captured values live in the field `pending`: the decision, the new history, the index and the score before the decision.
- The JSON-string comparison of the ordering answer is modelled as sequence equality. Serialising an array of strings is injective, so the two agree.
- The check `!selectedLeft` is also true for the empty string, so a pending id `""` behaves like no pending id.

## Model

| member | source | states |
|---|---|---|
| `Types.CorrectAnswer` | types.ts:19-20 | The correct answer is a string exactly for multiple choice and image choice, a boolean exactly for true/false, and absent for ordering and matching |
| `Types.OptionsOf` | types.ts:19 | Options are present exactly for multiple choice and image choice |
| `Types.CorrectOrderOf` | types.ts:21 | A correct order is present exactly for ordering questions |
| `Types.MatchingPairsOf` | types.ts:22 | Matching pairs are present exactly for matching questions |
| `Types.DistinctIdsCardinality` | types.ts:9-13 | When pair ids are distinct, the set of ids is as large as the list of pairs |
| `Types.FullMatchMeansEveryPair` | components/GameScreen.tsx:109 | If pair ids are distinct and the matched ids come from the pairs, then the size test succeeds exactly when every pair is matched |
| `Constants.QuestionsWellFormed` | constants.tsx:14-86 | There are ten questions with ids 1..10 in order. Each option answer is among its options. The order has no repeats. The pair ids are distinct and non-empty. So the best score, 10 × 10, is 100 |
| `Constants.QuestionKinds` | constants.tsx:14-86 | The kinds of the ten questions, in quiz order |
| `Constants.TrueFalseAnswersAreBooleans` | constants.tsx:26 | Both true/false questions (lines 26 and 77) expect the boolean `false` |
| `Constants.OrderingItemsDistinct` | constants.tsx:39 | The four sentences of the ordering question are pairwise distinct |
| `Constants.MatchingIdsDistinct` | constants.tsx:59-64 | The four pair ids m1..m4 are pairwise distinct |
| `Constants.MatchingQuestionHasFourIds` | constants.tsx:59-64 | The ids m1..m4 are distinct, so a full match takes four correct right clicks |
| `Session.PickIndex` | components/GameScreen.tsx:38 | For any random value in [0, 1), the index floor(r·8) is inside the eight-message pool |
| `Session.IsOptionCorrect` | components/GameScreen.tsx:68 | A direct answer is correct iff it is strictly equal to the correct answer: the same string with no trimming or case folding, or the same boolean. It is never correct on ordering or matching questions |
| `Session.Without` | components/GameScreen.tsx:77 | Filtering removes the item and keeps every other item. It leaves a list without the item unchanged. It keeps a list free of repeats and shortens it by one |
| `Session.WithoutKeepsOrder` | components/GameScreen.tsx:77 | In a list without repeats, filtering out the item at position i leaves exactly the items before i followed by the items after i, in their order |
| `Session.ToggleOrder` | components/GameScreen.tsx:74-81 | A click on an item at position i of a selection without repeats gives the items before i followed by the items after i, in their order. A click on an absent item appends it. The set of other items is the same, and the selection never gains repeats |
| `Session.ToggleTwiceRestores` | components/GameScreen.tsx:74-81 | Clicking an unselected item twice restores the previous selection |
| `Session.ToggleTwiceMovesChosenItem` | components/GameScreen.tsx:76-79 | In a selection without repeats, clicking the item at position i twice gives the other items in their order followed by that item. So the selection comes back exactly when the item was already last |
| `Session.Decide` | components/GameScreen.tsx:31-46 | A decision sets the lock and appends the result to the history. The score rises by 10 when the decision is correct and is unchanged otherwise, so score minus 10 × correct entries stays the same. The interaction state is unchanged, the feedback and message match the result, and the captured values are scheduled |
| `Session.ChooseOption` | components/GameScreen.tsx:66-70 | While locked, nothing changes. Otherwise one entry is appended: whether the answer is strictly correct. The question index, the ordering selection, the matched ids and the pending id are left as they were |
| `Session.ClickOrderItem` | components/GameScreen.tsx:72-88 | While locked, nothing changes. Otherwise the selection is toggled, and the question is decided exactly when the selection's length equals the correct order's length. Then it is correct iff the two sequences are equal. Below that length, neither history nor score changes. The question index, the matched ids and the pending id are left as they were |
| `Session.ClickMatchItem` | components/GameScreen.tsx:90-118 | While locked, nothing changes. A left click only sets the pending id. A right click with no pending id (or the empty one) does nothing. A mismatched right click only clears the pending id. A matching right click adds the id and clears the pending id, and decides exactly when the set size equals the number of pairs. History only ever gains `true`. The question index and the ordering selection are left as they were |
| `Session.TimerStepAsWritten` | components/GameScreen.tsx:48-60 | The deferred step as written: with nothing pending it does nothing, and otherwise it always unlocks. It reports exactly when the pending decision was on the last question, and the report is the captured score plus 10 if that decision was correct, with the captured new history |
| `Session.TimerStep` | components/GameScreen.tsx:48-60 | The deferred step clears the ordering selection, matches, pending id and feedback, and keeps history and score. It moves to the next question exactly when this was not the last one, and otherwise reports the captured score plus 10 if the decision was correct, with the captured new history. It stays locked after the report (see Findings) |
| `Session.InitialInv` | components/GameScreen.tsx:14-26 | The initial session (index 0, score 0, empty history, unlocked) satisfies the invariant |
| `Session.DecidePreservesInv` | components/GameScreen.tsx:31-37 | A decision on an unlocked session keeps `score == 10 * countTrue(history)` and one entry per decided question |
| `Session.ChooseOptionPreservesInv` | components/GameScreen.tsx:66-70 | The option handler keeps the invariant |
| `Session.ClickOrderItemPreservesInv` | components/GameScreen.tsx:72-88 | The ordering handler keeps the invariant |
| `Session.ClickMatchItemPreservesInv` | components/GameScreen.tsx:90-118 | The matching handler keeps the invariant |
| `Session.TimerStepPreservesInv` | components/GameScreen.tsx:48-60 | The deferred step keeps the invariant. A report is exactly the session's current score and history, has one entry per question, scores 10 per correct entry, lies within 0..10·n, and ends the session |
| `Session.StepPreservesInv` | components/GameScreen.tsx:31-118 | Every event keeps the invariant. A report is exactly the score and history the session had, which the step keeps; it is sound and ends the session, and a finished session ignores every event |
| `Session.RunKeepsInv` | components/GameScreen.tsx:31-118 | Over any sequence of events the invariant holds, every report is sound, and every report is exactly the final score and history of the run. At most one report is produced, and none once the session is finished |
| `Session.RunReportsAtMostOnce` | components/GameScreen.tsx:48-60 | A fresh session reports at most once, whatever the player does. The report is the session's final score and history, with one entry per question and 10 points per correct entry |
| `Session.ClickingSequenceDecides` | components/GameScreen.tsx:84-86 | Clicking a full-length sequence without repeats decides the ordering question once, with the full sequence selected. It is correct iff the sequence is the correct order |
| `Session.CorrectOrderIsRecordedCorrect` | components/GameScreen.tsx:84-86 | Clicking the correct order from an empty selection records `true` |
| `Session.RotatedOrderIsRecordedWrong` | components/GameScreen.tsx:84-86 | Rotating the correct order by one place gives a permutation of it, and clicking that permutation records `false` |
| `Session.RotationKeepsNoDuplicates` | components/GameScreen.tsx:84-86 | Moving the first item of a sequence without repeats to the end gives a permutation of it, still without repeats, so it can be clicked in full |
| `Session.OrderingDisplayMatchesCorrectOrder` | components/GameScreen.tsx:186 | The four sentences offered on screen are a permutation of the authored correct order, so the correct order can be clicked |
| `Session.MatchRightClick` | components/GameScreen.tsx:100-111 | A right click on the pending non-empty id adds that id to the matched set, keeps the invariant, and decides "correct" exactly when the matched set reaches the number of pairs |
| `Session.MatchOnePair` | components/GameScreen.tsx:100-111 | A left then a right click on a pair's id adds that id. The question is decided, as correct, exactly when this was the last pair |
| `Session.MatchingEveryPairDecides` | components/GameScreen.tsx:100-111 | Matching the remaining pairs one by one decides the question once, as correct |
| `Session.TwoQuestionSession` | components/GameScreen.tsx:31-69 | Two questions: a right answer, the timer, a wrong true/false answer, the timer. This gives exactly one report, 10 points over [true, false] |
| `Session.MatchingWithOneMiss` | components/GameScreen.tsx:93-116 | A mismatched right click leaves the session as it was. Matching both pairs then decides `true` once, for 10 points |
| `Session.AsWrittenReportsTwice` | components/GameScreen.tsx:48-60 | On a one-question quiz, the as-written step lets a second answer after the report produce a second report with two entries |
| `Session.AsWrittenScores110` | components/GameScreen.tsx:48-60 | On the authored quiz, after a perfect run, the as-written step reopens the last question. Choosing "hand" again reports 110 points over eleven entries |
| `Session.FinishedSessionIgnoresClicks` | components/GameScreen.tsx:48-60 | With the corrected step, the same click after the report changes nothing and no second report follows |
| `Session.GameScreen.constructor` | components/GameScreen.tsx:14-26 | The component starts at index 0 with score 0, an empty history, no lock and empty interaction state |
| `Session.GameScreen.HandleNext` | components/GameScreen.tsx:31-62 | Updates the fields in place to exactly the state `Decide` gives |
| `Session.GameScreen.HandleOptionClick` | components/GameScreen.tsx:66-70 | Updates the fields in place as `ChooseOption` does, and keeps the invariant |
| `Session.GameScreen.HandleOrderClick` | components/GameScreen.tsx:72-88 | Updates the fields in place as `ClickOrderItem` does, and keeps the invariant |
| `Session.GameScreen.HandleMatchClick` | components/GameScreen.tsx:90-118 | Updates the fields in place as `ClickMatchItem` does, and keeps the invariant |
| `Session.GameScreen.Advance` | components/GameScreen.tsx:48-60 | Runs the corrected deferred body in place as `TimerStep` does, keeping the lock after the last report, and keeps the invariant. Any report it returns is the session's score and history and is sound |
| `AppView.App.constructor` | App.tsx:10-15 | The application starts on the welcome view with score 0, index 0 and an empty history |
| `AppView.App.StartGame` | App.tsx:17-25 | Starting (also replay, line 107) gives the game view, score 0, index 0 and an empty history, whatever came before |
| `AppView.App.HandleGameEnd` | App.tsx:27-37 | Score and history become exactly the values passed in and the view becomes the result view. The index is unchanged |
| `AppView.TierOf` | App.tsx:76-85 | The top tier iff the score is 100. The middle tier iff the score is at least 70 and not 100. Otherwise, try again |
| `AppView.TierMonotone` | App.tsx:76-85 | On reportable scores (0..100), a higher score never gets a lower tier, and the middle tier is exactly 70 ≤ score < 100 |
| `AppView.DotColourOf` | App.tsx:103 | Dot i is green iff i < \|history\| and history[i], red iff i < \|history\| and not history[i], grey otherwise |
| `AppView.Dots` | App.tsx:102-104 | One dot per question, each coloured by the rule above |
| `AppView.GreenCountIsCorrectCount` | App.tsx:102-104 | The number of green dots among the first k equals the number of correct entries among the first k |
| `AppView.ResultScreenShowsReport` | App.tsx:76-104 | For a sound report of the authored quiz: no dot is grey, each green dot is worth 10 points, and the top tier appears iff every answer was correct |

## Left out

- Sound playback: `playSound` has no effect on the session and is left out (services/audioService.ts is not part of this model).
- Rendering: the render functions, the button component, CSS classes and the icon mapping are presentation only. The progress-bar percentage is float arithmetic for display only.
- Timer durations: the 2.5-second and 1-second delays are not modelled. Each timer is an explicit step, and nothing cancels a timer, as in the program.
- React scheduling: the handlers are modelled as sequential updates that run to completion, with no batching or stale closures beyond the captured values of the scheduled step.
- The second argument of `handleMatchClick`, the clicked item's text, is not used by the handler and is not modelled.
- Disabled buttons: the view disables selected ordering items and matched pairs. The handlers do not check this, so the model accepts any item or id.
- Composition: the application mounting the game screen for the game view is not modelled as one machine. `AppView.ResultScreenShowsReport` connects a session's report to the result screen.
- Random distribution: `Math.random` is any value in [0, 1). Its uniform distribution is not modelled.
- Session.TimerStep: on the last question it keeps the lock after reporting, unlike the program. See Findings. `Session.TimerStepAsWritten` is the program's step.
- Session.GameScreen.Advance: the in-place step follows the corrected `TimerStep`, so after the last report it sets the lock again, where components/GameScreen.tsx:50 unlocks unconditionally. The as-written step is modelled only as the function `Session.TimerStepAsWritten`; the class invariant rules out the reopened state it leads to.

## Notes on the code

- Toggling an ordering item twice restores the selection only if the item was not selected. A selected item that is not last moves to the end, and a selected last item comes back in place (`Session.ToggleTwiceMovesChosenItem`). The view disables selected items, so the removal branch cannot be reached by clicking.
- The middle tier is `score >= 70` after the test for exactly 100, so a score above 100 would also get the middle tier (`AppView.TierOf`).
- A matching question is never decided as wrong. Mismatches can be retried without limit.

## Findings

| source | as written | input that shows it | evidently intended | confidence | as-written member | corrected member |
|---|---|---|---|---|---|---|
| components/GameScreen.tsx:48-60 | After reporting the last question, the deferred step unlocks the session on that question. The game screen stays mounted for one more second (App.tsx:29), so a further answer is accepted and reported again | Answer all ten questions correctly, then pick "hand" again within a second of the last feedback closing. A second report of 110 points over eleven entries reaches the result screen, which shows the middle tier | A finished session accepts no further decision, so it reports once, with one entry per question and at most 100 points | medium, not executed | `Session.AsWrittenScores110` | `Session.RunReportsAtMostOnce` |
