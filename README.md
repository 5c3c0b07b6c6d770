# Dictée trainer: practice engines, word lists, statistics and resume store

This project models the logic of a browser spelling-practice application for
French word lists. A pupil picks a list, types each word as it is dictated and
gets immediate feedback. The model covers four parts.

- **The practice screen** (`PracticeView`, module `PracticeView`). It keeps one
  `{revealed, firstTry}` status per word, the current word, the typed input and
  the feedback. It has the submit, reveal and next-word handlers and three
  delayed callbacks. On the last word it saves a scored record to the history.
  The results view shows the last ten records of the list.
- **The earlier single-component application** (`DicteeApp`, module `Dictee`).
  It has a menu of word lists, an editor, list creation and deletion, and a
  practice session without reveal and without saved scores.
- **The statistics screen** (`StatsView`, module `Stats`). All of it is pure:
  filtering by list, average and best score, the per-list breakdown in
  first-occurrence order, and the ten-record chart window.
- **The resume store** (`DicteeStateManager`, module `Progress`). One storage
  slot holds the snapshot of an unfinished session. The snapshot is stamped on
  save, returned on load unless it is more than 24 hours old, and cleared
  otherwise.

Shared pieces sit in their own modules.

- `Text` models JavaScript's `trim` and `toLowerCase` and the answer check
  `userInput.toLowerCase().trim() === word.toLowerCase()`.
- `Scoring` models the per-word status and the score `Math.round(100·k/n)`.
- `Wrappers` holds `Option`.

Each screen's state is a datatype, and each handler is a function from the
state before to the state after. The screens are also written as classes:
`PracticeView.Practice`, `Dictee.DicteeApp` and `Progress.Store`. Their fields
hold the state, the per-word statuses live in an `array` that the submit and
reveal handlers update in place, and each method is proved to perform its
function. Pending `setTimeout` callbacks are a queue. Within one component all
callbacks use the same delay, so they run in the order they were scheduled, and
`Fire`/`FireTimer` runs the oldest one. User events may happen between any two
callbacks.

Behaviour of the code that a reader may not expect, which the model keeps:

- **Blank input.** The practice screen's Enter key calls `handleSubmit`
  without the button's blank-input guard (`practice-view.tsx:263`). So a blank
  answer is accepted and counts as a miss (`BlankSubmitMisses`); it is not
  refused. The earlier engine has only the guarded button, so its `Submit`
  requires non-blank input.
- **Submitting after the finish.** Nothing stops a second submit on the last
  word. Each correct submit there saves another record, so "saved exactly once"
  is not claimed.
- **Results after a first try on the last word.** When the last word is right
  at the first try but the session is not flawless, that submit saves the score
  but neither shows the results nor schedules a callback that shows them
  (`FirstTryLastNotFlawless`). They appear only after a later reveal or miss
  and another correct submit, which saves a second record
  (`RevealAfterFirstTryLast`). A reveal alone never finishes a session: the
  next-word button does nothing on the last word.
- **Callbacks are not cancelled.** Neither engine cancels a pending callback
  on reset or on starting another list. In the earlier engine, a reset during
  the delay is followed by a jump to the word after the one answered
  (`ResetKeepsPendingAdvance`). Starting a shorter list can leave an advance
  that overshoots its last word (`StaleAdvanceLeavesList`).
- **Record dates.** A record's date is the display string
  `toLocaleDateString('fr-FR')`, not an ISO timestamp. It is a parameter
  (`today`).
- **Perfect scores.** The score is 100 exactly for a flawless session only
  below 200 words. From 200 words on, one miss can round up to 100
  (`LongListRoundsToPerfect`).
- **Where the old controls live.** The earlier engine's practice controls sit
  in the fallback render (`old/dictee.tsx:601`). That render is reached only
  for a view other than menu, edit and practice. No `setView` call selects
  such a view (`old/dictee.tsx:288`, `299`, `334`, `488`, `681`), so the
  fallback render and its `handleSubmit` and `handleReset` controls cannot be
  reached in the running application. The handlers are still modelled as
  written.

## Model

| member | source | states |
|---|---|---|
| Text.TrimStart | src/components/practice-view.tsx:112 | leading half of `trim`: a suffix of the input, no longer than it, that does not start with white space |
| Text.TrimStartDropsWhite | src/components/practice-view.tsx:112 | everything `TrimStart` drops is white space |
| Text.TrimEnd | src/components/practice-view.tsx:112 | trailing half of `trim`: a prefix of the input that does not end with white space |
| Text.TrimEndDropsWhite | src/components/practice-view.tsx:112 | everything `TrimEnd` drops is white space |
| Text.Trim | src/components/practice-view.tsx:112 | `trim`: never longer than the input, and neither end is white space |
| Text.TrimIsInfix | src/components/practice-view.tsx:112 | the trimmed string is the infix of the input between an all-white prefix and an all-white suffix |
| Text.TrimEmptyIff | src/components/practice-view.tsx:270 | a string trims to nothing exactly when it is all white space (the button's `!userInput.trim()` guard) |
| Text.TrimIdempotent | src/components/practice-view.tsx:112 | trimming twice is trimming once |
| Text.Lower | src/components/practice-view.tsx:112 | `toLowerCase` keeps the length and folds each character on its own |
| Text.LowerIdempotent | src/components/practice-view.tsx:112 | folding twice is folding once |
| Text.LowerKeepsWhite | src/components/practice-view.tsx:112 | case folding turns no white space into a letter and no letter into white space |
| Text.TrimStartLower | src/components/practice-view.tsx:112 | removing leading blanks commutes with folding |
| Text.TrimEndLower | src/components/practice-view.tsx:112 | removing trailing blanks commutes with folding |
| Text.TrimLowerCommute | src/components/practice-view.tsx:112 | `lower(trim(s)) == trim(lower(s))`, so the order of the two calls does not matter |
| Text.MatchesIff | src/components/practice-view.tsx:112 | an answer is correct exactly when its trimmed, folded form equals the folded target |
| Text.BlankNeverMatches | src/components/practice-view.tsx:112 | an all-white input is never correct for a non-empty word |
| Text.TargetMatchesItself | src/components/practice-view.tsx:112 | a word without surrounding blanks is matched by itself |
| Text.LowercaseWordMatchesItself | src/components/practice-view.tsx:112 | a word of lower-case letters `a`–`z` is matched by itself |
| Text.Matches | src/components/practice-view.tsx:112 | the answer check, written the same way in the earlier engine (`old/dictee.tsx:398`); a correct answer is never shorter than the word |
| Text.UntrimmedTargetNeverMatches | src/components/practice-view.tsx:112 | the target is not trimmed, so a word with a leading or trailing blank can never be answered |
| Scoring.InitialStatuses | src/components/practice-view.tsx:40-42 | one status per word, each hidden and still first-try |
| Scoring.AllFirstTry | src/components/practice-view.tsx:130 | `every(status => status.firstTry)` holds exactly when the first-try count reaches the number of words |
| Scoring.CountFirstTry | src/components/practice-view.tsx:85 | the first-try count never exceeds the number of words |
| Scoring.CountAllIff | src/components/practice-view.tsx:85 | the count equals the number of words exactly when every word is still first-try |
| Scoring.CountMonotone | src/components/practice-view.tsx:85 | fewer first-try flags never count more |
| Scoring.UpdateMonotone | src/components/practice-view.tsx:116-118 | replacing one status by one no more first-try and no less revealed changes no flag the wrong way |
| Scoring.RoundHalfUp | src/components/practice-view.tsx:86 | `Math.round` of an exact quotient: the integer nearest to it, a tie going up |
| Scoring.RoundWithin | src/components/stats-view.tsx:26-28 | a rounded quotient lying between two integers stays between them |
| Scoring.Score | src/components/practice-view.tsx:86 | `Math.round(100·k/n)`: the integer nearest to the percentage, a tie going up; it lies in 0..100, all words first-try gives 100 and none gives 0 |
| Scoring.ScoreFacts | src/components/practice-view.tsx:86 | the rounded `100·k/n` lies in 0..100, is 100 for `k = n` and 0 for `k = 0` |
| Scoring.PerfectOnlyIfFlawless | src/components/practice-view.tsx:86 | below 200 words only a flawless session scores 100 |
| Scoring.LongListRoundsToPerfect | src/components/practice-view.tsx:86 | with 400 words, 399 first tries already round to 100 |
| Scoring.ScoreMonotone | src/components/practice-view.tsx:86 | more first-try words never lower the score |
| Scoring.ScoreOf | src/components/practice-view.tsx:85-86 | a session's score is the integer nearest to 100 times the first-try share (a tie going up), in 0..100, 100 for a flawless session and, below 200 words, only then |
| Stats.ForList | src/components/stats-view.tsx:21 | the records of one list: exactly the history's records with that identifier |
| Stats.ForListConcat | src/components/stats-view.tsx:21 | filtering distributes over concatenation, so the history's order is kept |
| Stats.ForListAppend | src/components/stats-view.tsx:21 | a new record joins its list's records at the end and no other list's |
| Stats.ForListCounts | src/components/stats-view.tsx:21 | each record of the list occurs as often as in the history, every other record not at all |
| Stats.Relevant | src/components/stats-view.tsx:20-22 | with a list selected, exactly its records; otherwise the whole history |
| Stats.Sum | src/components/stats-view.tsx:27 | the total agrees with `reduce`'s left-to-right fold: the sum of all but the last record plus the last score |
| Stats.SumWithin | src/components/stats-view.tsx:27 | the sum of scores in `[lo, hi]` lies between `len·lo` and `len·hi` |
| Stats.Average | src/components/stats-view.tsx:24-29 | 0 for an empty history, otherwise the integer nearest to the mean score (a tie going up) |
| Stats.AverageWithin | src/components/stats-view.tsx:24-29 | the rounded mean of scores in `[lo, hi]` stays in `[lo, hi]` |
| Stats.MaxScore | src/components/stats-view.tsx:33 | a score of the history that no score exceeds |
| Stats.Best | src/components/stats-view.tsx:31-34 | 0 for an empty history, otherwise a score of the history that no score exceeds |
| Stats.AverageAtMostBest | src/components/stats-view.tsx:24-34 | the average of a non-empty history never exceeds the best score |
| Stats.DistinctIdsSpec | src/components/stats-view.tsx:74 | the breakdown's identifiers are those occurring in the history, each once, in first-occurrence order |
| Stats.DistinctIds | src/components/stats-view.tsx:74 | the breakdown has no more rows than the history has records |
| Stats.IdHasRecords | src/components/stats-view.tsx:75 | each listed identifier has at least one record |
| Stats.Breakdown | src/components/stats-view.tsx:74-79 | one row per distinct identifier, in order, named by its first record, with that list's average |
| Stats.FirstRecordName | src/components/stats-view.tsx:76 | the name shown is that of the earliest record of the list |
| Stats.LastN | src/components/stats-view.tsx:50 | `slice(-n)` for a positive `n`: the last `min(n, len)` records, the history being the dropped part followed by them |
| Stats.LastNAppend | src/components/stats-view.tsx:50 | after one more record the window gains it and, when full, loses its oldest entry |
| Stats.Chart | src/components/stats-view.tsx:50 | `relevantHistory.slice(-10)`: the last `min(10, count)` records of the selected list, or of the whole history when none is selected, in history order |
| Progress.Save | src/components/dictee-state-manager.tsx:17-29 | the slot holds the snapshot with its stamp replaced by the current time; on a storage error it is unchanged |
| Progress.Clear | src/components/dictee-state-manager.tsx:54-60 | the slot is empty afterwards; on a storage error it is unchanged |
| Progress.Expired | src/components/dictee-state-manager.tsx:39-40 | only a readable stamp can expire, and only one more than 24 hours old |
| Progress.ExpiredStaysExpired | src/components/dictee-state-manager.tsx:39-40 | once expired, a stamp stays expired at every later time |
| Progress.Load | src/components/dictee-state-manager.tsx:31-52 | a snapshot comes back exactly when the slot holds one that parses and is not expired, and it is the stored one; an expired snapshot is removed from the slot when the storage does not fail, and the slot changes in no other way |
| Progress.HasSaved | src/components/dictee-state-manager.tsx:62-65 | true exactly when the storage does not fail and the slot holds this list's parsed, unexpired snapshot |
| Progress.SaveThenLoad | src/components/dictee-state-manager.tsx:17-47 | loading within 24 hours of a save returns the saved snapshot with the save time as its stamp |
| Progress.ExpiryBoundary | src/components/dictee-state-manager.tsx:38-45 | exactly 24 hours after a save the snapshot is returned; one millisecond later nothing is, and the slot is emptied |
| Progress.ClearThenLoad | src/components/dictee-state-manager.tsx:54-60 | after a clear nothing loads |
| Progress.LoadStable | src/components/dictee-state-manager.tsx:31-52 | a second load at the same time returns what the first did |
| Progress.Store.constructor | src/components/dictee-state-manager.tsx:15 | the store starts with the given slot contents |
| Progress.Store.SaveProgress | src/components/dictee-state-manager.tsx:17-29 | the slot becomes `Save` of the old slot |
| Progress.Store.ClearProgress | src/components/dictee-state-manager.tsx:54-60 | the slot becomes `Clear` of the old slot |
| Progress.Store.LoadProgress | src/components/dictee-state-manager.tsx:31-52 | returns `Load`'s result and leaves `Load`'s slot |
| Progress.Store.HasSavedProgress | src/components/dictee-state-manager.tsx:62-65 | true exactly when loading yields a snapshot of that list; an expired snapshot is cleared on the way |
| PracticeView.Mount | src/components/practice-view.tsx:34-47 | the screen holds the given list (id, name and words) on its first word, with fresh statuses, the history read back, empty input, no feedback, no verdict, no celebration or overlay, no results and no callbacks |
| PracticeView.Save | src/components/practice-view.tsx:84-97 | `saveScore`: exactly one record (today, the session's `ScoreOf` score, list id and name) is appended, earlier records and all else unchanged; 100 for a flawless session and, below 200 words, only then |
| PracticeView.Matched | src/components/practice-view.tsx:115-159 | a match reveals the current word only; on the last word it appends the session's record; results are shown at once only for a non-first-try last word |
| PracticeView.SubmitEnabled | src/components/practice-view.tsx:270 | the check button's `disabled={!userInput.trim()}`: an empty field never enables it |
| PracticeView.SubmitEnabledIff | src/components/practice-view.tsx:270 | the check button is enabled exactly when the input is not all white space |
| PracticeView.Submit | src/components/practice-view.tsx:110-166 | `handleSubmit`: the verdict is the answer check; only the current word's status changes (revealed if right, first-try lost if wrong); index and input stay; history grows by the session's record exactly on a right answer on the last word |
| PracticeView.Missed | src/components/practice-view.tsx:160-165 | a miss clears the current word's first-try flag and shows the retry message, nothing else |
| PracticeView.Reveal | src/components/practice-view.tsx:99-108 | `showAnswer`: the word is revealed, loses its first try and fills the input; index, callbacks and history unchanged |
| PracticeView.Next | src/components/practice-view.tsx:168-175 | `nextWord`: one word on with a cleared turn, a no-op on the last word |
| PracticeView.Fire | src/components/practice-view.tsx:133-158 | the oldest callback runs: an advance moves to the word after the one it was scheduled from; the others hide the celebration, one also shows the results |
| PracticeView.Type | src/components/practice-view.tsx:260 | typing replaces the input and nothing else |
| PracticeView.Results | src/components/practice-view.tsx:177-180 | the last `min(10, count)` records of this list, in history order |
| PracticeView.BlankSubmitMisses | src/components/practice-view.tsx:263 | a blank answer submitted with Enter is a miss and costs the first try |
| PracticeView.FlawlessFinish | src/components/practice-view.tsx:128-137 | a flawless finish saves 100, announces it, and schedules the results and the end of the celebration |
| PracticeView.FirstTryLastNotFlawless | src/components/practice-view.tsx:128-143 | a first-try last word in a non-flawless session saves a record but schedules nothing that shows the results |
| PracticeView.RevealAfterFirstTryLast | src/components/practice-view.tsx:99-149 | after that first-try finish, revealing and submitting again shows the results and leaves two new records |
| PracticeView.MatchSchedulesAdvance | src/components/practice-view.tsx:140-159 | a match before the last word saves nothing and schedules the celebration's end (first try only) and then the advance |
| PracticeView.MissSchedulesNothing | src/components/practice-view.tsx:160-165 | a miss schedules no callback and saves nothing |
| PracticeView.LateFinishShowsResults | src/components/practice-view.tsx:144-149 | a right last word after a miss or reveal saves the session's score and shows the results at once |
| PracticeView.RevealThenSubmitOnLast | src/components/practice-view.tsx:99-149 | a reveal on the last word neither finishes nor advances, but submitting the revealed word then saves and shows the results |
| PracticeView.FireStaysOnList | src/components/practice-view.tsx:152-159 | a pending advance never moves past the last word |
| PracticeView.SubmitMonotone | src/components/practice-view.tsx:110-166 | a submit never brings a first try back, never hides a word, and touches no other word |
| PracticeView.FirstWordAtFirstTry | src/components/practice-view.tsx:110-159 | in a two-word list, a first-try match of word one schedules two callbacks, after which word two is current and nothing is saved |
| PracticeView.SecondWordMissed | src/components/practice-view.tsx:160-165 | then a miss on word two marks it not first-try and saves nothing |
| PracticeView.SecondWordAfterMiss | src/components/practice-view.tsx:144-149 | then a right answer saves one record scoring 50 and shows the results |
| PracticeView.HalfScore | src/components/practice-view.tsx:85-86 | one first try out of two words scores 50 |
| PracticeView.TwoWordSession | src/components/practice-view.tsx:110-166 | the whole two-word session: first word right at once, second right after a miss, history `[50]`, results shown |
| PracticeView.Practice.constructor | src/components/practice-view.tsx:34-47 | the fields hold `Mount`'s state in a fresh status array |
| PracticeView.Practice.SetUserInput | src/components/practice-view.tsx:260 | the state becomes `Type` of the old state |
| PracticeView.Practice.SaveScore | src/components/practice-view.tsx:84-97 | the state becomes `Save` of the old one; returns the saved score |
| PracticeView.Practice.HandleSubmit | src/components/practice-view.tsx:110-166 | the state, status array included, becomes `Submit` of the old state |
| PracticeView.Practice.Accept | src/components/practice-view.tsx:115-159 | the state becomes `Matched` of the old state |
| PracticeView.Practice.ShowAnswer | src/components/practice-view.tsx:99-108 | the state becomes `Reveal` of the old state |
| PracticeView.Practice.NextWord | src/components/practice-view.tsx:168-175 | the state becomes `Next` of the old state |
| PracticeView.Practice.FireTimer | src/components/practice-view.tsx:133-158 | the state becomes `Fire` of the old state |
| Dictee.ApplyEdit | old/dictee.tsx:292-296 | lists with the draft's id take its name and words; count, order, ids and every other list unchanged |
| Dictee.SaveUntouchedDraft | old/dictee.tsx:282-296 | saving an unchanged draft leaves unique-id lists as they were |
| Dictee.AppendWord | old/dictee.tsx:303-306 | the trimmed word is appended exactly when it is not blank, otherwise the words are unchanged |
| Dictee.AppendKeepsClean | old/dictee.tsx:303-306 | appending keeps every word non-blank and trimmed |
| Dictee.CleanWordMatchesItself | old/dictee.tsx:398 | every word the editors can store is matched when typed as it is |
| Dictee.RemoveAt | old/dictee.tsx:315 | exactly position `i` is removed, the rest in order; an index out of range changes nothing |
| Dictee.RemoveKeepsClean | old/dictee.tsx:312-317 | removing keeps every word non-blank and trimmed |
| Dictee.WithoutId | old/dictee.tsx:320 | exactly the lists with another identifier remain |
| Dictee.WithoutIdConcat | old/dictee.tsx:320 | deleting distributes over concatenation, so the remaining lists keep their order |
| Dictee.WithoutIdCounts | old/dictee.tsx:320 | every other list occurs as often as before, one with that id not at all |
| Dictee.WithoutMissingId | old/dictee.tsx:320 | deleting an identifier no list has changes nothing |
| Dictee.WithoutIdKeepsUnique | old/dictee.tsx:320 | deleting keeps identifiers unique |
| Dictee.Initial | old/dictee.tsx:178-188 | the component mounts on the menu with the given lists, nothing selected and no callbacks |
| Dictee.BeginEdit | old/dictee.tsx:282-289 | `startEditing`: a draft of the list named as the list, in the editor, nothing else changed |
| Dictee.CanSave | old/dictee.tsx:495 | the editor's save button, disabled by a blank name or an empty word list: enabled exactly when a draft is open, its name is not all white space and it has a word (stated by `GuardsIff`) |
| Dictee.SaveEdited | old/dictee.tsx:291-300 | `saveEditedList`: the lists become `ApplyEdit`, the draft is dropped, back to the menu; the session is untouched and unique identifiers stay unique |
| Dictee.AddWordToDraft | old/dictee.tsx:302-310 | the draft gains the trimmed word and the field is cleared, or for a blank word nothing changes |
| Dictee.RemoveWordFromDraft | old/dictee.tsx:312-317 | the draft's words lose position `i`, nothing else changes |
| Dictee.Delete | old/dictee.tsx:319-321 | the lists become `WithoutId`, nothing else changes |
| Dictee.AddToTemp | old/dictee.tsx:350-355 | the new list's words gain the trimmed word and the field is cleared, or for a blank word nothing changes |
| Dictee.CanCreate | old/dictee.tsx:571 | the create button, disabled by a blank name or no words: enabled only with a non-empty name and a word |
| Dictee.Create | old/dictee.tsx:337-348 | for a non-blank name one list (time as id, untrimmed name, the collected words) is appended and the fields emptied; otherwise nothing changes |
| Dictee.CreateKeepsUnique | old/dictee.tsx:340 | a list created at a time no identifier equals keeps identifiers unique |
| Dictee.EnabledButtonsKeepListsNonEmpty | old/dictee.tsx:571 | with the create and save buttons enabled only as at lines 495 and 571, every list keeps at least one word |
| Dictee.Start | old/dictee.tsx:328-335 | `startPractice`: the list is selected, the first word, fresh statuses, cleared input and feedback; pending callbacks are kept |
| Dictee.StartInRange | old/dictee.tsx:324-335 | a started session's current word exists exactly when the list has a word; it is also in range exactly when no pending advance overshoots the list |
| Dictee.SubmitEnabled | old/dictee.tsx:667 | the session's check button `disabled={!userInput.trim()}`: an empty field never enables it |
| Dictee.GuardsIff | old/dictee.tsx:495-667 | the save, create and check buttons are enabled exactly when their text field is not all white space and, to save or create, there is a word |
| Dictee.Submit | old/dictee.tsx:397-430 | defined whenever the current word exists, stale advances included; the verdict is the answer check; only the current word's status changes (revealed if right, first try lost if wrong); index, input, lists and view stay; a session in range stays in range |
| Dictee.Matched | old/dictee.tsx:401-423 | a match reveals the word, celebrates a first try, and schedules the advance unless on the last word, where it says finished; no advance it adds overshoots the list |
| Dictee.Missed | old/dictee.tsx:424-429 | a miss clears the word's first-try flag and shows the retry message, nothing else |
| Dictee.MissEffects | old/dictee.tsx:424-429 | a miss shows the retry message and schedules nothing |
| Dictee.MatchEffects | old/dictee.tsx:401-423 | a match's feedback, celebration flag and scheduled callbacks, depending on first try and last word |
| Dictee.SubmitMonotone | old/dictee.tsx:397-430 | a submit never brings a first try back and never hides a word |
| Dictee.Reset | old/dictee.tsx:432-438 | `handleReset`: fresh statuses, first word, cleared turn; pending callbacks kept |
| Dictee.Fire | old/dictee.tsx:407-420 | the oldest callback runs: an advance moves to the word after the one it was scheduled from; the other hides the celebration |
| Dictee.ResetAndFireKeepRange | old/dictee.tsx:414-438 | a reset and a callback keep a session in range |
| Dictee.NoAdvanceFromLast | old/dictee.tsx:414-423 | a submit on the last word schedules no advance |
| Dictee.MatchBeforeLastTimers | old/dictee.tsx:401-423 | a fresh match before the last word schedules the celebration's end (first try only) and then the advance |
| Dictee.ResetThenFire | old/dictee.tsx:414-438 | a reset keeps the pending callbacks and goes to word one, and the advance then moves to the word after the answered one |
| Dictee.ResetKeepsPendingAdvance | old/dictee.tsx:414-438 | a reset during an advance's delay restarts at word one, and the callback then jumps to the word after the answered one |
| Dictee.StaleAdvanceLeavesList | old/dictee.tsx:328-335 | starting a shorter list while an advance is pending leaves a callback that moves past its last word, while the new first word can still be answered |
| Dictee.EditsLeaveSessionAlone | old/dictee.tsx:282-355 | no menu or editor operation touches the practice session |
| Dictee.DicteeApp.constructor | old/dictee.tsx:178-188 | the fields hold `Initial`'s state |
| Dictee.DicteeApp.StartEditing | old/dictee.tsx:282-289 | the state becomes `BeginEdit` of the old state |
| Dictee.DicteeApp.SetDraftName | old/dictee.tsx:452 | only the draft's new name changes |
| Dictee.DicteeApp.SetNewWord | old/dictee.tsx:460 | only the word field changes |
| Dictee.DicteeApp.SetNewListName | old/dictee.tsx:547 | only the new list's name field changes |
| Dictee.DicteeApp.SetUserInput | old/dictee.tsx:656 | only the answer field changes |
| Dictee.DicteeApp.SaveEditedList | old/dictee.tsx:291-300 | the state becomes `SaveEdited` of the old state |
| Dictee.DicteeApp.AddWordToExistingList | old/dictee.tsx:302-310 | the state becomes `AddWordToDraft` of the old state |
| Dictee.DicteeApp.RemoveWordFromList | old/dictee.tsx:312-317 | the state becomes `RemoveWordFromDraft` of the old state |
| Dictee.DicteeApp.DeleteList | old/dictee.tsx:319-321 | the state becomes `Delete` of the old state |
| Dictee.DicteeApp.CreateNewList | old/dictee.tsx:337-348 | the state becomes `Create` of the old state at the given time |
| Dictee.DicteeApp.AddWordToTemp | old/dictee.tsx:350-355 | the state becomes `AddToTemp` of the old state |
| Dictee.DicteeApp.InitializeWordStatuses | old/dictee.tsx:324-326 | a fresh status array, one fresh status per word, nothing else changed |
| Dictee.DicteeApp.StartPractice | old/dictee.tsx:328-335 | the state becomes `Start` of the old state |
| Dictee.DicteeApp.HandleSubmit | old/dictee.tsx:397-430 | the state, status array included, becomes `Submit` of the old state |
| Dictee.DicteeApp.Hit | old/dictee.tsx:401-423 | the state becomes `Matched` of the old state |
| Dictee.DicteeApp.Miss | old/dictee.tsx:424-429 | the state becomes `Missed` of the old state |
| Dictee.DicteeApp.HandleReset | old/dictee.tsx:432-438 | the state becomes `Reset` of the old state |
| Dictee.DicteeApp.FireTimer | old/dictee.tsx:407-420 | the state becomes `Fire` of the old state |
| Dictee.DicteeApp.ReturnToMenu | old/dictee.tsx:681 | only the view changes, to the menu |

## Left out

- Sound and speech (`playSound`, `playPerfectSound`, `playSuccessSound`, `speak`) are browser audio and speech calls. They change no state the model keeps.
- Rendering is left out: the JSX, the confetti and stars, the word overlay, and the bullet masking of hidden words. `correctWordDisplay` and `showCelebration` are kept only as flags.
- Time is not wall-clock time. A callback runs when `Fire`/`FireTimer` is called, and the two delay constants are recorded but not used for scheduling.
- `Date` is a parameter. The display date is the string `today`, `Date.now()` is the integer `now`, and the snapshot stamp is an integer millisecond count (`None` when it does not parse as a date).
- Storage is abstract. `localStorage` and `JSON` are an abstract slot, and a storage error is the parameter `fails`, one per call. A stored value that parses but is not a snapshot object counts as `Unparseable`. A failing removal inside an otherwise successful load is not modelled separately.
- The history-persistence effect of the practice screen (`practice-view.tsx:50-52`) is left out, and so is the parse when it mounts (`practice-view.tsx:43-46`). `Mount` takes the saved history as a parameter.
- `Text.Lower` is not the full Unicode case mapping. It folds only A–Z, the Latin-1 capitals and Œ/Ÿ, a complete map for French words. JavaScript's other mappings, including those that change length, are left out.
- Scoring.Score: `Math.round` of a floating-point `(k/n)*100` is modelled as round-half-up of the exact quotient. The two can differ when the float product falls just below a half.
- PracticeView.Mount: requires a non-empty word list, and so do `Inv` and the handlers. With an empty list the source's render reads `wordStatuses[currentWordIndex].revealed` (`practice-view.tsx:302`) and throws.
- Dictee.Submit: requires the current word to exist (`WordExists`: a list selected, one status per word, the index on a word). Otherwise the source's `selectedList.words[currentWordIndex].toLowerCase()` throws. That happens only once a stale advance has run, or for an empty list. A pending stale advance is allowed, so the submit during its delay is modelled.
- The routing component `dictee-app-updated.tsx` and its seed word lists are left out, and so are `App.tsx` and the presentation components.
- Attempt histories, `totalAttempts` and per-word results are left out: they do not occur in the code. The snapshot keeps the `attempts` field only as data.
- React's batching of state updates is taken as sequential assignment within one handler. Unmounting is left out.
