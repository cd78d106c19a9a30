# Quiz application model

A Dafny model of the logic behind a classroom quiz web application. Students
log in with a registration number. They take a timed multiple-choice quiz with
an optional high-stakes bonus question, and lose points for switching away
from the tab. Their results feed a leaderboard and an analytics summary.
Administrators edit the question bank, the bonus questions and the student
list. Everything is kept in the browser's local storage.

The model follows the program file by file:

- `quiz_session.dfy` (module `QuizPage`) is the quiz page. It is a class
  whose fields are the page's state:
  - the question index and the append-only answer log;
  - `isAnswered`, the bonus prompt and bonus question flags;
  - the tab-switch penalties and the on-screen scores.

  Each handler is a method: select, time-up, advance, bonus choice, focus
  signals and clock ticks. The proofs show, among other things, that every
  presented question appends exactly one answer, in order.
- `scoring.dfy` holds the `finishQuiz` score as pure functions:
  - the regular score floored at zero after penalties;
  - the first bonus answer's +10/-8;
  - the total floored at zero.

  It also holds the running on-screen score, with its bounds and a
  divergence example.
- `timer.dfy` holds the one-shot countdown (`Timer`, a class) and its
  colour thresholds, restated in integers.
- `storage.dfy` models local storage as a class of typed fields (`LocalStore`).
- The stores over it are:
  - `question_bank.dfy`: question settings, merging of built-in questions
    with stored modifications, bulk time-limit update, Fisher–Yates shuffle
    and random selection;
  - `bonus_bank.dfy`: bonus questions;
  - `students.dfy` and `server_storage.dfy`: the student list, names,
    penalties and the results list;
  - `sessions.dfy`: device sessions.
- `question_admin.dfy` and `student_admin.dfy` hold the administration
  pages' handlers (validation, id allocation, stored-list rewrites).
- `login.dfy` holds the login page (the login decision, the remembered-login
  expiry, the replace-session dialog).
- `leaderboard.dfy` and `analytics.dfy` hold result processing, filtering,
  ranking and aggregation; `ranking.dfy` holds the shared sort and top-N.
- `quiz_card.dfy` and `report_card.dfy` hold the display decisions of the
  question card and the report card:
  - image split;
  - code-block extraction;
  - per-option marks;
  - labels.
- `legacy_quiz.dfy` holds the older quiz component, in which a correct bonus
  question is worth 2.
- `types.dfy`, `wrappers.dfy`, `lists.dfy` and `text.dfy` are the shared
  datatypes and the list and string helpers. These stand for JavaScript's
  `filter`, `find`, `findIndex`, `trim`, `split`, `indexOf` and `includes`.

Randomness (`Math.random`) and the clock (`Date.now`, the ISO day strings)
are parameters: `draw` functions, `token` strings, `now`, and `ClockDates`.

## Model

| member | source | states |
|---|---|---|
| Scoring.FinalScore | src/pages/quiz.tsx:250-266 | the stored regular score is max(0, correct regular answers − 2·penalties), between 0 and the number of correct regular answers; the bonus score is that of the first bonus answer (10, −8 or 0); the total is max(0, regular + bonus), never negative |
| Scoring.BonusFor | src/pages/quiz.tsx:261-263 | a bonus answer is worth 10 or −8, positive exactly when it is correct |
| Scoring.BonusPoints | src/pages/quiz.tsx:258-263 | 0 without a bonus answer, else 10 or −8 by the first bonus answer's correctness |
| Scoring.FirstBonus | src/pages/quiz.tsx:259 | `find(a => a.isBonus)`: a bonus answer from the log, or none exactly when the log has no bonus answer |
| Scoring.RegularCorrect | src/pages/quiz.tsx:250-252 | the count of correct regular answers never exceeds the count of regular answers |
| Scoring.PenaltyCostsTwo | src/pages/quiz.tsx:255 | one more penalty lowers the stored regular score by 2, floored at 0 |
| Scoring.RegularCountsAppend | src/pages/quiz.tsx:250-252 | appending an answer adds 1 to the regular count if it is regular, and 1 to the correct count if it is regular and correct |
| Scoring.FirstBonusAppend | src/pages/quiz.tsx:259 | appending an answer changes the first bonus answer only when there was none and the new one is a bonus answer |
| Scoring.ScoreEventsAppend | src/pages/quiz.tsx:153-158 | the on-screen score gains 1 per correct regular answer and loses 2, floored at 0, per penalty |
| Scoring.RunningScoreBounds | src/pages/quiz.tsx:250-255 | the on-screen score always lies between the stored score's formula and the number of correct answers |
| Scoring.RunningScore | src/pages/quiz.tsx:153-158 | the on-screen regular score is never negative |
| Scoring.RunningScoreCanExceedFinal | src/pages/quiz.tsx:250-255 | a penalty before two correct answers leaves 2 on screen but 0 in the stored result: the two scores diverge |
| QuizTimer.ColorFor | src/components/Timer.tsx:33-34 | for a positive limit: green iff 2·timeLeft > timeLimit, yellow iff 2·timeLeft ≤ timeLimit < 4·timeLeft, red iff 4·timeLeft ≤ timeLimit; a full clock is green and an empty one red |
| QuizTimer.PercentageScale | src/components/Timer.tsx:33-34 | the percentage thresholds 50 and 25 are exactly the integer tests 2·timeLeft > timeLimit and 4·timeLeft > timeLimit |
| QuizTimer.Timer.constructor | src/components/Timer.tsx:9-10 | not yet mounted and not running |
| QuizTimer.Timer.Mount | src/components/Timer.tsx:10-13 | the countdown starts at the time limit and runs unless the question is answered |
| QuizTimer.Timer.Render | src/components/Timer.tsx:12-31 | the clock is reset to the limit only when the limit changes; it runs exactly while unanswered |
| QuizTimer.Timer.Unmount | src/components/Timer.tsx:26 | clearing the interval stops the ticks and keeps the reading |
| QuizTimer.Timer.Tick | src/components/Timer.tsx:15-23 | a tick lowers the time by one while it is above 1; the tick that sees 1 or less sets 0, stops the interval and reports time-up once; without a running interval nothing changes |
| QuizPage.AnswerFor | src/pages/quiz.tsx:364-419 | the logged answer names the question, records the selection, and is correct exactly when an option was selected and it is the correct one |
| QuizPage.FindQuestion | src/pages/quiz.tsx:272 | the question found has that id; none means no question has it |
| QuizPage.DifficultyTally | src/pages/quiz.tsx:269-277 | the difficulty counts total at most the correct regular answers |
| QuizPage.TallyCounts | src/pages/quiz.tsx:269-277 | each difficulty count is the number of correct regular answers whose question (the first with its id) is found and has that difficulty |
| QuizPage.TallyComplete | src/pages/quiz.tsx:269-277 | when every regular answer's question is found, the difficulty counts total exactly the correct regular answers |
| QuizPage.QuizTitle | src/pages/quiz.tsx:323 | the configured title when it is non-empty; 'Regular Quiz' exactly when it is missing or empty |
| QuizPage.StoredRegNumber | src/pages/quiz.tsx:247 | the stored registration number when it is non-empty; 'Unknown' exactly when it is missing or empty |
| QuizPage.ResultRecord | src/pages/quiz.tsx:245-324 | the stored result carries the scores of `finishQuiz`, the penalties, the bonus choice, the difficulty tally of the answer log (whose total is at most the correct regular answers), the clock and the title |
| QuizPage.LogEntry | src/pages/quiz.tsx:356-383 | in an attempt's log, entry k answers the k-th regular question, or the bonus question after the last one |
| QuizPage.LogAppend | src/pages/quiz.tsx:379-427 | appending the answer to the next presented question keeps the log matching the questions |
| QuizPage.NoBonusAnswer | src/pages/quiz.tsx:442-455 | a log no longer than the regular questions has no bonus answer |
| QuizPage.LogBonusPoints | src/pages/quiz.tsx:258-263 | the stored bonus score is that of the log's last entry when the bonus question was answered, else 0 |
| QuizPage.TallyCountsAll | src/pages/quiz.tsx:269-277 | every correct regular answer of an attempt is counted under a difficulty |
| QuizPage.LogRegularCount | src/pages/quiz.tsx:250-252 | an attempt's log holds one regular answer per presented regular question |
| QuizPage.ScoreBoundsStep | src/pages/quiz.tsx:153-158 | a correct answer and a penalty each keep the on-screen score within its bounds |
| QuizPage.LedgerAnswer | src/pages/quiz.tsx:356-394 | answering the current question keeps the session's score bookkeeping consistent |
| QuizPage.FocusLatches.constructor | src/pages/quiz.tsx:130-131 | both latches start cleared |
| QuizPage.FocusLatches.Reset | src/pages/quiz.tsx:127-176 | re-running the listener effect clears both latches |
| QuizPage.QuizSession.CurrentQuestion | src/pages/quiz.tsx:118-124 | a question is shown exactly when the bonus prompt is down and either the bonus question is on or the index is in range |
| QuizPage.QuizSession.constructor | src/pages/quiz.tsx:178-221 | a fresh attempt: not started, empty log, zero scores, the configured title |
| QuizPage.QuizSession.Start | src/pages/quiz.tsx:223-225 | starting arms the latches and runs the clock from the first question's limit; a second start changes nothing |
| QuizPage.QuizSession.Select | src/pages/quiz.tsx:356-394 | while a question is open, selecting option i appends one answer, correct iff i is the correct answer, stops the clock and updates the on-screen score (+1, or 10/−8 on the bonus question); once answered it changes nothing |
| QuizPage.QuizSession.LogAnswer | src/pages/quiz.tsx:359-394 | the shared answer step of selection and timeout |
| QuizPage.QuizSession.TimeUp | src/pages/quiz.tsx:403-440 | while a question is open a timeout appends an unselected, incorrect answer and sets the bonus score to −8 on the bonus question; once answered it changes nothing |
| QuizPage.QuizSession.TimeOut | src/pages/quiz.tsx:403-427 | the timeout of an open question, as above |
| QuizPage.QuizSession.Finish | src/pages/quiz.tsx:245-329 | finishing appends exactly one result built by `ResultRecord` from the penalty count the calling closure sees; the log then holds one regular answer per question |
| QuizPage.QuizSession.Advance | src/pages/quiz.tsx:227-243 | the three stages of `moveToNextQuestion`: next question with a cleared selection, then the bonus prompt once, then finishing from the bonus question with the penalty count of the render that handled the bonus answer; nothing moves until the current question is answered |
| QuizPage.QuizSession.FinishCountingAll | src/pages/quiz.tsx:236-241 | the finish after the bonus answer as intended: it stores every charged penalty, so the stored regular score is at most the on-screen one |
| QuizPage.LatePenaltyNotStored | src/pages/quiz.tsx:398-400 | a tab switch in the pause after the bonus answer is charged and lowers the on-screen score, yet the stored record keeps the earlier count; with no earlier penalty and a positive score the stored regular score ends above the on-screen one |
| QuizPage.QuizSession.NextQuestion | src/pages/quiz.tsx:228-231 | index + 1, selection cleared, the clock reset only if the limit differs |
| QuizPage.QuizSession.RaiseBonusPrompt | src/pages/quiz.tsx:232-234 | after the last regular question the prompt shows and the clock stops |
| QuizPage.QuizSession.ChooseBonus | src/pages/quiz.tsx:442-455 | accepting clears the answer state and shows the bonus question; declining finishes with no bonus answer and a bonus score of 0 |
| QuizPage.QuizSession.TakeBonus | src/pages/quiz.tsx:446-451 | accepting the bonus question, as above |
| QuizPage.QuizSession.DeclineBonus | src/pages/quiz.tsx:452-454 | declining finishes with a log of regular answers only |
| QuizPage.QuizSession.Penalty | src/pages/quiz.tsx:127-163 | a penalty is charged only after the start and never under the bonus prompt; the visibility and blur latches are separate, so one tab switch can cost two penalties |
| QuizPage.QuizSession.ApplyPenalty | src/pages/quiz.tsx:153-158 | one more penalty, and 2 off the on-screen score, floored at 0 |
| QuizPage.QuizSession.Tick | src/pages/quiz.tsx:403-427 | a clock tick either counts down or, at 1 or less, records the timeout once |
| QuizPage.QuizSession.OnScreenScores | src/pages/quiz.tsx:250-266 | the on-screen bonus score equals the stored one, and the on-screen regular score lies between the stored one and the correct-answer count |
| QuizPage.LeftoverTimeout | src/components/Timer.tsx:17-31 | after a timeout, the next question with an equal limit keeps the clock at 0, so it times out on its first tick |
| Types.ApplyPatch | src/models/Question.ts:649-654 | `{ ...q, ...patch }`: each field the patch has overrides the question's, the others are kept |
| Storage.LocalStore.constructor | src/models/Question.ts:37-43 | an empty store: no stored list, map or key |
| QuestionBank.GetQuizSettings | src/models/Question.ts:37-55 | the stored settings; when the key is missing, the settings with every field absent, which differ from the defaults |
| QuestionBank.FirstIndex | src/models/Question.ts:649-650 | `findIndex` by id: the first question with the id, or none having it |
| QuestionBank.FirstIndexSameIds | src/models/Question.ts:649-650 | the lookup depends only on the ids |
| QuestionBank.PatchStep | src/models/Question.ts:648-655 | a modification rewrites only the first question with its id, and none for an unknown id |
| QuestionBank.Patched | src/models/Question.ts:646-655 | applying the modifications keeps the built-in ids in place |
| QuestionBank.PatchedAppend | src/models/Question.ts:648-655 | a modification of an unknown id is ignored, and a later one for the same id is applied on top of the earlier ones |
| QuestionBank.AllQuestions | src/models/Question.ts:641-661 | the built-in questions, in order and possibly modified, followed by every additional question in stored order |
| QuestionBank.GetAllQuestions | src/models/Question.ts:641-661 | the in-place merge computes `AllQuestions` |
| QuestionBank.ApplyModifications | src/models/Question.ts:646-655 | the loop over the modifications writes the array `Patched` describes |
| QuestionBank.Retimed | src/models/Question.ts:66-70 | every additional question of the difficulty gets the new limit; the others are unchanged |
| QuestionBank.FirstModIndex | src/models/Question.ts:80 | the first stored modification with the id, or none |
| QuestionBank.ModIds | src/models/Question.ts:80 | the ids of the stored modifications, position by position |
| QuestionBank.RetimeMod | src/models/Question.ts:78-86 | an existing modification of the question gets the limit in place; otherwise one whole-question modification is pushed |
| QuestionBank.FirstModIndexKept | src/models/Question.ts:78-86 | rewriting in place and pushing never move an existing first modification |
| QuestionBank.RetimeModStep | src/models/Question.ts:78-86 | one question's retime gives it a modification with the new limit and leaves the other ids' modifications in place |
| QuestionBank.RetimeModsShape | src/models/Question.ts:75-88 | after the bulk update every retimed question has a first modification with the new limit, pushed entries carry ids no other entry has, and the first modification of every id not retimed is where it was and as it was |
| QuestionBank.ToModify | src/models/Question.ts:73-75 | a question is retimed through modifications exactly when it is listed, has the difficulty, and no additional question has its id |
| QuestionBank.UpdateTimeLimits | src/models/Question.ts:63-89 | the additional questions are retimed in place and the built-ins through their modifications |
| QuestionBank.UpdateTimeLimitsRetimesBank | src/models/Question.ts:63-89 | read back through `getAllQuestions`, the update gives every listed question of the difficulty the new limit and leaves every other question as it was, when built-in ids and modification ids are distinct and no additional question reuses a built-in id |
| QuestionBank.PatchedPointwise | src/models/Question.ts:646-655 | with distinct ids, each built-in question ends up patched by the modification of its id, if any |
| QuestionBank.RetimeOne | src/models/Question.ts:78-86 | retiming one built-in question changes that question's limit in the listing and no other question, and keeps modification ids distinct |
| QuestionBank.RetimePrefix | src/models/Question.ts:75-88 | retiming the built-in questions of the difficulty along a prefix of the listing retimes exactly those questions |
| QuestionBank.ToModifySkipsAdditional | src/models/Question.ts:73-75 | the additional questions never join the questions retimed through modifications |
| QuestionBank.RetimeModifications | src/models/Question.ts:75-88 | the loop over the questions to modify computes `RetimeMods` |
| QuestionBank.Swap | src/models/Question.ts:680 | a swap keeps the length |
| QuestionBank.SwapPermutes | src/models/Question.ts:680 | a swap keeps the multiset of elements |
| QuestionBank.FisherYates | src/models/Question.ts:676-684 | the shuffle keeps the length |
| QuestionBank.FisherYatesPermutes | src/models/Question.ts:676-684 | the shuffle returns a permutation of its argument |
| QuestionBank.Shuffle | src/models/Question.ts:676-684 | `shuffleArray` on a copy: the result is the Fisher–Yates permutation and the argument is untouched |
| QuestionBank.ShuffleInPlace | src/models/Question.ts:677-682 | the swap loop over the array computes the Fisher–Yates permutation |
| QuestionBank.SliceEnd | src/models/Question.ts:666 | the end of `slice(0, n)`, including JavaScript's negative counts |
| QuestionBank.GetRandomQuestions | src/models/Question.ts:663-668 | the first min(n, total) questions of a shuffle of the whole bank (10 when no count is given), so drawn from it without repeats |
| QuestionBank.BonusOnly | src/models/Question.ts:671-672 | exactly the bonus questions of the bank |
| QuestionBank.PickBonus | src/models/Question.ts:670-674 | a bonus question of the bank, or none exactly when the bank has none |
| QuestionBank.PickBonusReaches | src/models/Question.ts:670-674 | every bonus question of the bank can be drawn |
| QuestionBank.GetRandomBonusQuestion | src/models/Question.ts:670-674 | the draw is taken from the merged bank |
| QuestionLists.WithoutId | src/models/BonusQuestions.ts:213-237 | `filter(q => q.id !== id)` keeps exactly the other ids |
| QuestionLists.WithId | src/models/BonusQuestions.ts:171 | `filter(q => q.id === id)` keeps exactly that id |
| QuestionLists.ReplaceById | src/models/BonusQuestions.ts:211-215 | after filtering an id out and pushing a question with it, exactly that question has the id and the other ids are untouched |
| BonusBank.RandomBonusQuestion | src/models/BonusQuestions.ts:158-161 | a copy of one of the built-in bonus questions, present exactly when there are any |
| BonusBank.RandomBonusReaches | src/models/BonusQuestions.ts:158-161 | every built-in bonus question can be drawn |
| BonusBank.AllBonusQuestions | src/models/BonusQuestions.ts:164-181 | the built-ins in order followed by the additional bonus questions |
| BonusBank.AllBonusListsBuiltIns | src/models/BonusQuestions.ts:166-177 | each built-in is listed flagged as a bonus question, or replaced whole by the first stored modification with its id |
| BonusBank.FindFirstIsFilterHead | src/models/BonusQuestions.ts:171-174 | `find` returns the head of the matching `filter` |
| BonusBank.AddBonusQuestion | src/models/BonusQuestions.ts:185-196 | appends exactly one entry, flagged as a bonus question |
| BonusBank.AddBonusListed | src/models/BonusQuestions.ts:164-196 | the added question appears once at the end of the listing and nothing else changes |
| BonusBank.ReplaceId | src/models/BonusQuestions.ts:219-224 | `map` replacing every entry with the id; nothing changes for an absent id |
| BonusBank.UpdateBonusQuestion | src/models/BonusQuestions.ts:200-228 | ids 101–110 replace their modification; other ids rewrite the matching additional entries in place |
| BonusBank.UpdateBuiltInListed | src/models/BonusQuestions.ts:164-216 | after updating a built-in, it is listed as the update and the other built-ins are unchanged |
| BonusBank.DeleteBonusQuestion | src/models/BonusQuestions.ts:232-244 | ids 101–110 only lose their modification; other ids are removed from the additional list |
| BonusBank.DeleteBuiltInRestores | src/models/BonusQuestions.ts:232-244 | deleting a built-in restores the original, which stays listed |
| BonusBank.DeleteAdditionalRemoves | src/models/BonusQuestions.ts:232-244 | deleting an additional id removes it from the listing and keeps the rest in order |
| QuestionAdmin.DraftError | src/pages/admin/questions.tsx:197-232 | the text, then every option, must be non-blank after trimming, with the matching messages |
| QuestionAdmin.MaxId | src/pages/admin/questions.tsx:209 | `Math.max(30, ...ids)`: at least 30, at least every id, and one of them or 30 |
| QuestionAdmin.NextId | src/pages/admin/questions.tsx:209 | the new id exceeds 30 and every existing id |
| QuestionAdmin.AddedOfListing | src/pages/admin/questions.tsx:212-214 | re-deriving the additional list from the listing (ids above 30) gives the stored list back |
| QuestionAdmin.PatchedUntouched | src/models/Question.ts:648-655 | a built-in with no modification is listed unchanged |
| QuestionAdmin.WholePatchShows | src/pages/admin/questions.tsx:248-255 | a stored whole question shows as that question (an absent explanation keeps the old one) |
| QuestionAdmin.QuestionsPage.constructor | src/pages/admin/questions.tsx:114-157 | a blank form and the stored settings |
| QuestionAdmin.QuestionsPage.Load | src/pages/admin/questions.tsx:159-161 | the listing is `getAllQuestions` |
| QuestionAdmin.QuestionsPage.HandleEditQuestion | src/pages/admin/questions.tsx:286-292 | the edited question is loaded into the form |
| QuestionAdmin.QuestionsPage.HandleAddQuestion | src/pages/admin/questions.tsx:196-219 | an invalid draft stores nothing; a valid one stores the listed questions above id 30 plus the draft under the next id |
| QuestionAdmin.QuestionsPage.HandleUpdateQuestion | src/pages/admin/questions.tsx:221-268 | ids up to 30 replace their modification with the whole draft; larger ids are rewritten in place in the additional list; invalid drafts store nothing |
| QuestionAdmin.QuestionsPage.HandleDeleteQuestion | src/pages/admin/questions.tsx:270-284 | ids up to 30 lose only their modification; larger ids are removed from the additional list; unconfirmed deletes change nothing |
| QuestionAdmin.QuestionsPage.HandleBulkTimeUpdate | src/pages/admin/questions.tsx:187-194 | the difficulty's configured limit is applied through `updateTimeLimits`; without one nothing is stored |
| QuestionAdmin.AddAppendsOne | src/pages/admin/questions.tsx:209-214 | after an add the stored additional list is the previous one plus the new question, and the listing keeps its shape |
| QuestionAdmin.AddedIdIsFresh | src/pages/admin/questions.tsx:209 | the added question's id is above 30 and above every listed id |
| QuestionAdmin.UpdateBuiltInShown | src/pages/admin/questions.tsx:248-255 | exactly one modification remains for the updated built-in, the others are untouched, and the listing shows the update |
| QuestionAdmin.UpdateAddedInPlace | src/pages/admin/questions.tsx:235-261 | updating an added question keeps the length and order of the additional list and replaces only that id |
| QuestionAdmin.DeleteRestoresOrRemoves | src/pages/admin/questions.tsx:272-281 | deleting a built-in restores it in the listing; deleting an added id keeps the other added questions |
| Students.AllStudents | src/models/Students.ts:76-79 | a number is registered in the list iff it is a built-in or an additional student |
| Students.RegisteredConcat | src/models/Students.ts:76-79 | registration in a concatenation is registration in either part |
| Students.AddStudent | src/models/Students.ts:82-92 | appends and returns true iff the number is not yet registered anywhere; otherwise false and nothing stored |
| Students.AddKeepsRegsDistinct | src/models/Students.ts:82-92 | adding keeps registration numbers unique and registers the new one |
| Students.WithoutReg | src/models/Students.ts:100 | after the filter the number is not registered |
| Students.DeleteStudent | src/models/Students.ts:95-104 | false and no change for a built-in; otherwise every additional student with the number is removed and true is returned |
| Students.DeleteUnregisters | src/models/Students.ts:95-104 | after a delete the number is gone and every other number is found as before |
| Students.StudentNameSync | src/models/Students.ts:153-170 | the first built-in with the number: its non-empty override, else its name; for a number no built-in has, the name of the first additional student with it; 'Unknown Student' for an unregistered number |
| Students.LocalNameAgrees | src/models/Students.ts:107-126 | the local part of `getStudentName` agrees with `getStudentNameSync`, and finds nothing exactly for unregistered numbers |
| Students.LocalStudentName | src/models/Students.ts:107-126 | a name is found locally exactly when a built-in or additional student has the number |
| Students.AddedStudentNamed | src/models/Students.ts:153-170 | a newly added student is known by its name |
| Students.SetPenalty | src/models/Students.ts:186-191 | the penalty is set on every additional student with the number and nothing else changes |
| Students.ApplyPenalty | src/models/Students.ts:173-194 | false and nothing stored for an unknown number; built-ins go to the penalty map, additional students get the field |
| Students.StudentPenalty | src/models/Students.ts:197-207 | the recorded penalty of the number; else the penalty field of the first additional student with the number, 0 when that field is missing; 0 for a number with neither |
| Students.PenaltyReadBack | src/models/Students.ts:173-207 | after a successful `applyPenalty(r, p)`, `getStudentPenalty(r)` is p |
| StudentAdmin.Serial | src/pages/admin/students.tsx:83-115 | the last three digits of a well-formed number, 0 to 999 |
| StudentAdmin.StemOnlyAtStart | src/pages/admin/students.tsx:83-115 | on a 15-character number an unanchored or end-anchored 14-character stem can only match at the start |
| StudentAdmin.IsRegNumberFormat | src/pages/admin/students.tsx:36 | `/^RA\d{13}$/`: 'RA' followed by exactly thirteen digits (definition; used by `AddStudentError`) |
| StudentAdmin.RenamePattern | src/pages/admin/students.tsx:83 | the rename regular expression, each anchor bound to its alternative (definition; `RenamePatternRange` and `RenamePatternHalfAnchored` state what it accepts) |
| StudentAdmin.DefaultStudentPattern | src/pages/admin/students.tsx:114-115 | the `isDefaultStudent` regular expression (definition; `DefaultStudentPatternRange` and `DefaultStudentPatternUnanchored` state what it accepts) |
| StudentAdmin.RenamePatternRange | src/pages/admin/students.tsx:83 | on well-formed numbers the rename pattern matches exactly serials 074–084 |
| StudentAdmin.DefaultStudentPatternRange | src/pages/admin/students.tsx:114-115 | on well-formed numbers `isDefaultStudent` matches exactly serials 062–119 |
| StudentAdmin.RenamePatternHalfAnchored | src/pages/admin/students.tsx:83 | the alternation binds each anchor to one side: strings with extra text after the first stem or before the second match |
| StudentAdmin.DefaultStudentPatternUnanchored | src/pages/admin/students.tsx:114-115 | the middle alternatives match anywhere in the string |
| StudentAdmin.AddStudentError | src/pages/admin/students.tsx:32-40 | accepted iff the name is non-empty and the number is 'RA' and 13 digits; empty fields give 'Please fill in all fields' |
| StudentAdmin.HandleAddStudent | src/pages/admin/students.tsx:31-51 | stores the student iff the form is valid and the number is new; otherwise nothing is stored |
| StudentAdmin.HandleDeleteStudent | src/pages/admin/students.tsx:53-67 | the admin account is never deleted, built-in students cannot be deleted, an unconfirmed delete does nothing |
| StudentAdmin.Rename | src/pages/admin/students.tsx:90-92 | every additional entry with the number is renamed and nothing else changes |
| StudentAdmin.HandleUpdateStudent | src/pages/admin/students.tsx:74-100 | blank names are rejected; numbers matching the line-83 pattern go to the override map, all others rewrite the additional list |
| StudentAdmin.RenameOverrideShown | src/pages/admin/students.tsx:83-86 | an override of a built-in is the name shown |
| StudentAdmin.RenameOfBuiltInLost | src/pages/admin/students.tsx:87-94 | renaming a built-in outside the pattern changes no shown name: the edit is lost |
| StudentAdmin.RenameAdditionalShown | src/pages/admin/students.tsx:87-94 | renaming an additional student is shown |
| ServerStorage.AddServerStudent | src/models/ServerStorage.ts:24-34 | appends and returns true iff no stored student has the number; otherwise false and no change |
| ServerStorage.AddServerKeepsRegsDistinct | src/models/ServerStorage.ts:24-34 | adding keeps the registration numbers unique |
| ServerStorage.DeleteServerStudent | src/models/ServerStorage.ts:37-46 | true iff a matching student existed; afterwards none remain and nothing is written on false |
| ServerStorage.DeleteServerKeepsOthers | src/models/ServerStorage.ts:37-46 | every other student is kept |
| ServerStorage.UpdateServerStudent | src/models/ServerStorage.ts:49-59 | renames only the first matching student and returns true; false and no change without a match |
| ServerStorage.UpsertResult | src/models/ServerStorage.ts:77-91 | the result replaces, in place, the first result with its number, every other result kept where it was; without one it is appended at the end, so the list grows by one exactly then |
| ServerStorage.UpsertKeepsRegsDistinct | src/models/ServerStorage.ts:77-91 | unique numbers stay unique and the number's only result is the new one |
| ServerStorage.AddQuizResult | src/models/ServerStorage.ts:77-93 | always true; the list is the upsert |
| ServerStorage.GetServerQuizSettings | src/models/ServerStorage.ts:96-98 | the stored settings, or settings with 10 questions and every other field absent |
| Sessions.GenerateDeviceId | src/models/Sessions.ts:8-19 | the stored non-empty device id, or a new `device_` id that is stored |
| Sessions.Touch | src/models/Sessions.ts:38-47 | the device's first session is rewritten in place with (r, d, now), every other session kept where it was; without one, (r, d, now) is appended at the end |
| Sessions.CreateSession | src/models/Sessions.ts:22-52 | as written: the device id used is returned and the saved list is the touch of the unfiltered list |
| Sessions.CreateSessionKeepsOtherDevice | src/models/Sessions.ts:30-49 | a session of the same number on another device survives the login, and the new device does not validate |
| Sessions.CreateSessionReplacing | src/models/Sessions.ts:30-49 | the intended version: the number's sessions on other devices are dropped before the touch |
| Sessions.CreateSessionReplacingValidates | src/models/Sessions.ts:30-80 | after the intended login, the device validates |
| Sessions.SessionValid | src/models/Sessions.ts:68-80 | true iff a device id is stored and the first session of the number is on this device |
| Sessions.ValidateSession | src/models/Sessions.ts:68-80 | reads the store and answers `SessionValid` |
| Sessions.FindIsAtFindIndex | src/models/Sessions.ts:75-79 | `find` returns the element `findIndex` points at |
| Sessions.RemoveSession | src/models/Sessions.ts:83-87 | every session of the number is removed, the rest kept in order |
| Sessions.RemovedSessionInvalid | src/models/Sessions.ts:68-87 | after removal the number does not validate and other numbers' sessions are unchanged |
| Sessions.CleanupSessions | src/models/Sessions.ts:90-95 | exactly the sessions written less than 24 hours before now are kept, in order |
| Sessions.CleanupIdempotent | src/models/Sessions.ts:90-95 | cleaning twice at the same time is cleaning once, and a session written now survives |
| Login.LoginDecision | src/pages/index.tsx:163-203 | the admin logs in only with '110604'; others need their number as password; an existing session of the number opens the dialog; otherwise the student logs in |
| Login.AnyNumberIsItsOwnPassword | src/pages/index.tsx:179-189 | the registration-number check never refuses anyone: any non-admin number with itself as password is let through |
| Login.Home | src/pages/index.tsx:144-150 | the admin goes to the dashboard, everyone else to the quiz |
| Login.LoginExpired | src/pages/index.tsx:130-136 | the remembered login is dropped without a number, without a login time, or after more than 30 minutes (definition; `LoginRememberedFor30Minutes` states its window) |
| Login.LoginPage.constructor | src/pages/index.tsx:88-97 | no error, loading, no dialog, nothing pending |
| Login.LoginPage.Mount | src/pages/index.tsx:98-161 | expired sessions are cleaned; a logout removes the number's sessions and the login; a missing or over-30-minute login is discarded; a valid session is renewed and redirected; an invalid one is discarded |
| Login.LoginPage.HandleLogin | src/pages/index.tsx:163-203 | errors set the matching message and store nothing; admin and student logins go through the program's `createSession`, so the saved list is the device's session touched in the unfiltered list, and store the number and time and redirect; an existing session holds the login as pending with the dialog open |
| Login.LoginPage.CompleteLogin | src/pages/index.tsx:205-213 | the program's `createSession`: the saved list is the old list with this device's session touched, the number's sessions on other devices kept; the number and time are stored and the quiz opens |
| Login.LoginPage.HandleForceLogin | src/pages/index.tsx:215-220 | a pending login is completed as `completeLogin` does, with the saved session list stated; without one nothing in storage changes; the dialog closes |
| Login.LoginPage.HandleCancelLogin | src/pages/index.tsx:222-225 | the pending login is discarded and the dialog closed, with no session created |
| Login.LoginRememberedFor30Minutes | src/pages/index.tsx:130-150 | when the number had no session on another device, a login made at t is not expired and its session validates until t + 30 minutes |
| Login.StudentLoginRemembered | src/pages/index.tsx:196-213 | a student let in without the dialog is remembered at the next visit within 30 minutes |
| Login.ForcedLoginNotRemembered | src/pages/index.tsx:215-220 | when the number's first session is fresh and on another device, the login opens the dialog, and after a forced login the list saved keeps that session first, so the next visit discards the login |
| Login.ForcedLoginExample | src/pages/index.tsx:192-220 | with ('RA2411043010062', 'device_a') stored, a forced login on 'device_b' is discarded at the next visit |
| Leaderboard.OrElse | src/pages/leaderboard.tsx:103-105 | `value \|\| fallback` on a string |
| Leaderboard.Process | src/pages/leaderboard.tsx:92-113 | missing scores and penalties count as 0; rawScore is regular + bonus; penaltyPoints is twice the penalties; the score is max(0, raw − penaltyPoints) |
| Leaderboard.PenaltyCountedTwice | src/pages/leaderboard.tsx:99-99 | a stored result whose regular score already lost the penalty loses it again on the leaderboard |
| Leaderboard.ProcessAll | src/pages/leaderboard.tsx:92 | `map` of the processing over the stored results |
| Leaderboard.FirstPos | src/pages/leaderboard.tsx:118 | the first position of a title |
| Leaderboard.FirstSeenGrow | src/pages/leaderboard.tsx:118 | more titles never reorder the first sightings |
| Leaderboard.UniqueTitles | src/pages/leaderboard.tsx:117-121 | each quiz title once, in first-seen order |
| Leaderboard.Selected | src/pages/leaderboard.tsx:141-155 | exactly the rows of the period and, unless 'all', of the quiz |
| Leaderboard.Titles | src/pages/leaderboard.tsx:117 | the rows' titles |
| Leaderboard.Scores | src/pages/leaderboard.tsx:174 | the rows' scores |
| Leaderboard.HighestIsFirst | src/pages/leaderboard.tsx:158-174 | after the sort the highest score is the first row's |
| Leaderboard.LeaderboardPage.constructor | src/pages/leaderboard.tsx:76-85 | empty lists, 'all' quiz, all-time filter, loading |
| Leaderboard.LeaderboardPage.Mount | src/pages/leaderboard.tsx:87-133 | the rows are the processed results, the quiz list the unique titles, the first quiz selected and filtered; the count and the highest score (0 without rows) are those of the shown rows |
| Leaderboard.LeaderboardPage.FilterResults | src/pages/leaderboard.tsx:135-179 | the shown rows are the selection sorted by score, then timestamp, descending; the count is their number; the highest score is their maximum, or 0 |
| Leaderboard.LeaderboardPage.HandleTimeFilterChange | src/pages/leaderboard.tsx:181-184 | the period is set and the rows refiltered, with their count and highest score (0 without rows) |
| Leaderboard.LeaderboardPage.HandleQuizFilter | src/pages/leaderboard.tsx:186-189 | the quiz is set and the rows refiltered, with their count and highest score (0 without rows) |
| Leaderboard.FilteringOnlyRemoves | src/pages/leaderboard.tsx:141-163 | filtering only removes rows; all time and all quizzes keep every row |
| Leaderboard.PeriodsNarrow | src/pages/leaderboard.tsx:136-150 | today's rows are among this week's, which are among this month's |
| Ranking.Insert | src/pages/leaderboard.tsx:158-163 | one insertion adds the element and keeps the others |
| Ranking.InsertDescending | src/pages/leaderboard.tsx:158-163 | insertion keeps the order by score, then tie-break |
| Ranking.SortDescending | src/pages/leaderboard.tsx:158-163 | a permutation ordered by score, non-increasing, ties by the secondary key |
| Ranking.SortKeepsDescending | src/pages/leaderboard.tsx:158-163 | sorting an ordered list leaves it unchanged |
| Ranking.HeadIsHighest | src/pages/leaderboard.tsx:174 | the first element of an ordered list has the highest score |
| Ranking.MaxOf | src/pages/leaderboard.tsx:174-174 | `Math.max(...xs)`: an element, at least every element |
| Ranking.Top | src/utils/analytics.ts:36-38 | at most n elements of the input, ordered by score |
| Ranking.TopLeavesOutLower | src/utils/analytics.ts:36-38 | every element left out of the top n ranks no higher than the last one kept |
| Ranking.PeriodsNested | src/utils/analytics.ts:5-11 | with dates in one format, today is within the week and the week within the month |
| Analytics.TotalsIgnoreUnscored | src/utils/analytics.ts:17-27 | results without difficulty scores add nothing to the totals |
| Analytics.DifficultyTotals | src/utils/analytics.ts:17-27 | the sum of the difficulty scores; zero when no result carries them; a single result contributes its own scores |
| Analytics.TotalsAppend | src/utils/analytics.ts:17-27 | the totals of two lists of results joined are the sums of their totals |
| Analytics.PercentWithinRange | src/utils/analytics.ts:28-33 | a share of a positive total lies between 0 and 100 |
| Analytics.Percent | src/utils/analytics.ts:28-33 | 0 for a zero total; otherwise the integer p with p ≤ 100·part/total + 1/2 < p + 1, which is `Math.round` |
| Analytics.Distribution | src/utils/analytics.ts:28-33 | every share is 0 when the total is 0 |
| Analytics.HighestScore | src/utils/analytics.ts:43 | the highest score of the results, or 0 without any |
| Analytics.TopPerformers | src/utils/analytics.ts:36-38 | the ten best results, drawn from the input, ordered by score; those left out score no higher |
| Analytics.CalculateAnalytics | src/utils/analytics.ts:3-53 | the number of attempts, the highest score, the period counts, the difficulty totals and shares and the top performers |
| Analytics.ParticipantsNested | src/utils/analytics.ts:5-41 | participants today ≤ this week ≤ this month ≤ attempts |
| Analytics.DistributionWithinRange | src/utils/analytics.ts:17-33 | with non-negative difficulty scores the totals are non-negative and every share lies in 0..100 |
| Analytics.TotalsNonNegative | src/utils/analytics.ts:17-27 | non-negative contributions give non-negative totals |
| LegacyQuiz.Points | src/components/Quiz.tsx:48-52 | a question adds 2 if it is a correct bonus question, 1 if another correct one, else 0 |
| LegacyQuiz.Score | src/components/Quiz.tsx:47-53 | the sum of the points; 0 exactly when no question is answered correctly |
| LegacyQuiz.BonusCount | src/components/Quiz.tsx:50 | at most one bonus question per question |
| LegacyQuiz.ScoreBounds | src/components/Quiz.tsx:47-53 | 0 ≤ score ≤ questions + bonus questions ≤ 2·questions |
| LegacyQuiz.AllCorrectScoresMost | src/components/Quiz.tsx:47-53 | all answers correct give the maximum |
| LegacyQuiz.NoneCorrectScoresZero | src/components/Quiz.tsx:47-53 | no correct answer gives 0 |
| LegacyQuiz.ScoreReadsOnlyQuestionIds | src/components/Quiz.tsx:47-53 | answers under ids of no question do not change the score |
| LegacyQuiz.TimeTaken | src/components/Quiz.tsx:60 | the time taken is the sum of the limits less the final clock once per question, not the time spent |
| LegacyQuiz.IsCorrect | src/components/Quiz.tsx:65 | the answer equals the correct answer of the first question with the id |
| LegacyQuiz.SavedAnswers | src/components/Quiz.tsx:62-66 | one saved entry per recorded answer, with its text |
| LegacyQuiz.SavedCorrectMatchesScore | src/components/Quiz.tsx:47-66 | a saved answer is marked correct exactly when its question counts in the score |
| LegacyQuiz.Submission | src/components/Quiz.tsx:45-67 | the record carries the student, the score of the answers (at most 2·total questions), the question count, the saved answers, the time taken in closed form and the type 'general' |
| LegacyQuiz.LegacyQuizPage.constructor | src/components/Quiz.tsx:17-27 | index 0, no answers, the clock at the first question's limit |
| LegacyQuiz.LegacyQuizPage.HandleAnswer | src/components/Quiz.tsx:29-34 | the answer to one question is set, overwriting an earlier one; the others are kept |
| LegacyQuiz.LegacyQuizPage.HandleNext | src/components/Quiz.tsx:36-43 | on to index + 1 with that question's limit, or submission on the last question |
| LegacyQuiz.LegacyQuizPage.SubmitQuiz | src/components/Quiz.tsx:45-70 | the record is handed over and the report shown |
| LegacyQuiz.LegacyQuizPage.Previous | src/components/Quiz.tsx:125 | one question back, never below 0 |
| QuizCard.QuestionText | src/components/QuizCard.tsx:21-25 | without an image the whole text; with one a piece of the text before the first '![' with non-space ends and only white space around it there: the trimmed prefix |
| QuizCard.IndexOnLine | src/components/QuizCard.tsx:27-29 | the first occurrence of a separator before the end of the line |
| QuizCard.LinkAt | src/components/QuizCard.tsx:27-29 | the match of the image pattern at a given '![': its '](' is the first one on that line and its ')' the first one after that; none exactly when no image link starts there |
| QuizCard.FirstLinkFrom | src/components/QuizCard.tsx:27-29 | the leftmost match: an image link with no image link starting between the search start and it; none exactly when no image link starts from the search start on |
| QuizCard.ImageUrl | src/components/QuizCard.tsx:27-29 | a URL only for text with '![', and without ')' or a line break |
| QuizCard.ImageUrlIffLink | src/components/QuizCard.tsx:27-29 | a URL exactly when the text has an image link, and it is the first link's parenthesised part |
| QuizCard.ImageUrlNonGreedy | src/components/QuizCard.tsx:27-29 | for "![a](b](c)" the URL is "b](c": the alternative text stops at the first '](' and the URL runs to the next ')' |
| QuizCard.CodeBlock | src/components/QuizCard.tsx:21-33 | a code block exactly when the text has no '![' (`HasImage`) and has '```cpp'; its value is `FencedCode`, the split-and-trim extraction |
| QuizCard.BeforeOfPrefix | src/components/QuizCard.tsx:31-33 | cutting at a separator is unaffected by what follows its first occurrence |
| QuizCard.GluedFence | src/components/QuizCard.tsx:31-33 | a fence overlapping another fence is preceded by a backtick |
| QuizCard.CodeBetweenFences | src/components/QuizCard.tsx:31-33 | the code block is the trimmed text between the first '```cpp' and the next '```' |
| QuizCard.OptionMark | src/components/QuizCard.tsx:98-107 | every option neutral before answering; after, the correct one green and the selected one red iff it is not the correct one |
| QuizCard.AtMostOneWrong | src/components/QuizCard.tsx:98-107 | at most one option is red, and it is the selected one |
| QuizCard.OptionClick | src/components/QuizCard.tsx:96 | a click selects the option only before answering |
| QuizCard.OptionLetter | src/components/QuizCard.tsx:124 | option i is labelled 'A' + i |
| QuizCard.LettersDistinct | src/components/QuizCard.tsx:124 | distinct options get distinct letters, A to D for the first four |
| ReportCard.Header | src/components/QuizReportCard.tsx:30 | 'High Stakes Question' for a bonus question, else 'Question ' followed by index + 1 in decimal digits without a leading zero |
| ReportCard.ResultLabel | src/components/QuizReportCard.tsx:56-73 | the label is 'Correct' or '+10 points' exactly for a correct answer, a points label exactly for the bonus question, and 'Incorrect' for a wrong regular answer |
| ReportCard.BonusLabelMatchesScore | src/components/QuizReportCard.tsx:56-73 | a bonus answer's label announces exactly the points the score gives it |
| ReportCard.ReportCode | src/components/QuizReportCard.tsx:81-85 | a code block exactly when the text has '```cpp', image or not; its value is `FencedCode`, the extraction of the question card |
| ReportCard.ReportShowsCardCode | src/components/QuizReportCard.tsx:81-85 | where the question card shows a code block, the report shows the same one |
| ReportCard.ReportMark | src/components/QuizReportCard.tsx:96-100 | the correct option always highlighted; the selected one wrong only when the answer is incorrect and it is not the correct one; a timeout marks nothing wrong |
| ReportCard.ReportMatchesCard | src/components/QuizReportCard.tsx:96-100 | for answers recorded as the quiz records them, the report marks each option as the answered card did |
| Text.DecimalRoundTrip | src/components/QuizReportCard.tsx:30 | decimal rendering of a number reads back as that number |
| Text.TrimEmptyIffBlank | src/pages/admin/questions.tsx:197-205 | `trim()` is empty exactly for blank strings |

## Left out

- Rendering: JSX, styling, snackbars, dialogs, `alert` and `confirm` are out of scope. `confirm` is a boolean parameter. Navigation is a recorded destination.
- Local storage is typed fields, not JSON strings. Malformed JSON, key-string plumbing and the `currentQuizData` report record are not modelled.
- Network access is not modelled: the remote database hooks, `saveResult`, `onComplete` and the server fetch in `getStudentName`. `LocalStudentName` covers only the local lookups.
- Asynchrony is not modelled: `setTimeout` delays, interval wall-clock timing and effect re-subscription. Events and ticks are method calls, delivered one at a time.
- Randomness and the clock are parameters: a `draw` function, a `token` string, `now`, and the three ISO day strings of `ClockDates`.
- Floating point is left out: the averages in the analytics and leaderboard, and the percentage rounding. `Analytics.Percent` restates `Math.round` in integers. The timer colour is restated as integer thresholds.
- Locale date formatting and PDF export are not modelled.
- `handleSubmit` and `calculateRegularScore`/`calculateBonusScore` in the quiz page are not modelled: no event reaches them.
- Strings are sequences of code points, where JavaScript strings are UTF-16. `trim` removes JavaScript's full WhiteSpace and LineTerminator set, written out in `Text.IsSpace`.
- QuizPage.ResultRecord: the timestamp is the integer clock reading, where the page stores an ISO string.
- QuizPage.ResultRecord: the stored `id` field (`${regNumber}-${now.getTime()}`, src/pages/quiz.tsx:312) is not modelled. The leaderboard uses it only as a list key.
- Leaderboard.LeaderboardPage.FilterResults: the timestamp tie-break is modelled on integer timestamps. Over the page's ISO strings it yields NaN.
- Ranking.SortDescending: an insertion sort; the browser's `sort` may order equal keys differently.
- Analytics.CalculateAnalytics: the averages are left out; the report holds only the integer fields.
- QuizCard.CodeBetweenFences: requires the second '```cpp', when there is one, not to follow a backtick directly, because a glued fence would make the closing '```' fall inside it.
- QuizCard.OptionLetter: requires 'A' + index to stay below the surrogate range, because `String.fromCharCode` wraps modulo 2^16 and the model does not.
- QuizCard.ImageUrl: states that a URL is found only for an image link and has no ')' or line break, not which characters the regular expression's `.` admits beyond line terminators.
- QuestionBank.UpdateTimeLimitsRetimesBank: holds under three conditions the model takes as given. The built-in ids are distinct. The stored modifications carry distinct ids, since the edit page (src/pages/admin/questions.tsx:247-255) drops an id's modification before pushing the new one. No additional question reuses a built-in id, since the admin page numbers new questions above the largest id and at least 31 (src/pages/admin/questions.tsx:208-214). With two modifications of one id, the later one could override the new limit.
- QuestionAdmin.QuestionsPage.HandleBulkTimeUpdate: with no configured limit for the difficulty the model stores nothing. The page would pass `undefined` on and write it as each question's limit, and the integer time limit has no absent value.
- The saved answers of the legacy quiz are a map from question id, not the array of `Object.entries`, so their order is not modelled.
- The legacy quiz does not model the clock, which is driven by a `Timer` whose props do not match the component's.
- The registration-number check in `handleLogin` is absent from `Login.LoginDecision`: it tests the Promise returned by `getStudentName`, which is always truthy.
- The built-in questions, bonus questions and students are abstract constant sequences in `Catalog`, not the literal data.
- The `time_limit`/`timeLimit` and `answer_options`/`options` field-name variants are not modelled: the canonical question record has one shape.
- QuestionBank.UpdateTimeLimits, QuestionBank.Retimed and QuestionAdmin.QuestionsPage.HandleBulkTimeUpdate make the bulk time update take effect. In the program `updateTimeLimits` (src/models/Question.ts:69-84) writes `time_limit`, while the quiz page and the admin listing read `timeLimit`, so the new limit is stored but never read.

## Findings

| source | as written | input that shows it | evidently intended | confidence | as-written member | corrected member |
|---|---|---|---|---|---|---|
| src/models/Sessions.ts:30-49 | the list filtered to drop the number's sessions on other devices is saved, then the unfiltered list read earlier is updated and saved over it, so the other devices' sessions survive | a session ('RA2411043010062', 'device_a'), then a login of the same number on 'device_b': the old session stays first, so 'device_b' does not validate | logging in on a new device replaces the number's sessions on other devices, so the new device validates | not executed | Sessions.CreateSession, Sessions.CreateSessionKeepsOtherDevice, Login.ForcedLoginNotRemembered | Sessions.CreateSessionReplacing, Sessions.CreateSessionReplacingValidates |
| src/pages/quiz.tsx:398-400 | the move after the bonus answer runs 1.5 s later in the closure of the answering render, so `finishQuiz` stores that render's penalty count; a penalty charged in the pause is shown and taken off the on-screen score but not stored | the bonus question answered with no penalty and a positive on-screen score, then the tab hidden before the move: the record stores 0 penalties and the full regular score, the screen shows 2 less | every penalty charged before the finish is stored, so the stored regular score never exceeds the one on screen | not executed | QuizPage.QuizSession.Advance, QuizPage.LatePenaltyNotStored | QuizPage.QuizSession.FinishCountingAll |

The login page keeps the program's `createSession`, so that its contracts and lemmas describe the page as it runs; the corrected version and its property stand beside it in `Sessions`.

The quiz page likewise keeps the program's delayed finish in `Advance`; `FinishCountingAll` states the intended finish beside it.
