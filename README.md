# Eisenhower task prioritiser — a Dafny model

This project models the deterministic core of a task-prioritisation app for
cross-border e-commerce teams. The user types a task, optionally with a due
time. An external language-model classifier returns an urgency score `u`, an
importance score `i` and three explanations. The app then corrects that
answer with local guardrails and stores the task in one of the four
Eisenhower quadrants:

- Q1 立即执行 (do now);
- Q2 制定计划 (plan);
- Q3 授权他人 (delegate);
- Q4 暂不处理 (drop for now).

Three guardrails do the correcting:

- a due-date floor on urgency (60/45/30/10 by distance to the due time);
- a keyword floor on importance (80 for legal/safety/compliance words, 70 for packaging or review words);
- the 60/60 quadrant thresholds.

The model covers those guardrails and the task store, with its search,
open and done lists. It also covers the board's per-quadrant columns with
their due-status tags and display order, and the countdown shown in the
task details.

Modules:

- `Wrappers`: `Option`.
- `Text`: ASCII lower-casing, substring search, the JavaScript `trim` white space, decimal rendering with its read-back.
- `Clock`: millisecond constants, `Abs`, and the floor-division split of a duration into days, hours and minutes.
- `Seqs`: `filter` (`Keep`) and the stable `sort` of a copy (`SortBy`), which orders by a three-integer key.
- `Types`: the task record, the classifier's answer, and the quadrant and status values.
- `Guardrails`: the pure part of `App.tsx`, ending in `ClassifiedRecord`, the record a successful classification stores.
- `Store`: the `TaskStore` class with the component state `tasks`, `isLoading` and `error`, and the pure list operations it uses.
- `Board`: `components/MatrixBoard.tsx`.
- `Countdown`: `components/TaskDetailsModal.tsx`.

Conventions:

- JavaScript truthiness of a due time (`if (dueAt)`) is `Truthy`: present and not 0.
- A raw score from the classifier is `Finite(n)` or `NonFinite`.
- The clock readings, the fresh id, the confirmation answer and the local calendar-day comparison are parameters.

Keyword floors follow the three regular expressions of `App.tsx:60-62`, tested in that order. So the text "标签不合规" ("label non-compliant") gets importance floor 80, not 70: the high-risk pattern, tested first, contains "合规" (`Guardrails.NonCompliantLabelFloor`).

## Model

| member | source | states |
|---|---|---|
| Text.TrimStart | App.tsx:174 | the result is a suffix of the input that does not start with white space, and what was cut off is all white space |
| Text.TrimEnd | App.tsx:174 | the result is a prefix of the input that does not end with white space, and what was cut off is all white space |
| Text.BlankIffTrimEmpty | App.tsx:174 | `trim()` gives the empty string exactly when every character is JavaScript white space |
| Text.Lower | App.tsx:59 | lower-casing keeps the length and lower-cases each character, ASCII letters only |
| Text.ContainsLower | App.tsx:175-176 | a substring stays a substring after both sides are lower-cased |
| Text.ToDecimal | App.tsx:108 | the rendering of a number is a non-empty run of digits, starting with '0' only for 0 |
| Text.DecimalRoundTrip | App.tsx:108 | reading the rendering back as a decimal gives the number |
| Text.NotInDecimal | components/TaskDetailsModal.tsx:25 | a non-digit marker such as '天' never occurs in a rendered number |
| Text.NumberAtConcat | App.tsx:117 | a number rendered between two texts can be read back from its position |
| Clock.Abs | App.tsx:51 | `Math.abs`: the result is the argument or its negation, and not negative |
| Clock.Decompose | components/TaskDetailsModal.tsx:19-22 | hours < 24 and minutes < 60; days > 0 iff the distance is at least one day; days·day + hours·hour ≤ abs < days·day + (hours+1)·hour; the same bracket at minute level |
| Seqs.Keep | App.tsx:150 | `filter`: no longer than the input; every kept element is in the input and passes; every passing input element is kept |
| Seqs.KeepConcat | App.tsx:176 | filtering distributes over concatenation, so relative order is kept |
| Seqs.KeepMultiset | App.tsx:176 | filtering keeps exactly the passing elements, each with all its copies |
| Seqs.KeepAll | App.tsx:150 | a filter every element passes returns the input unchanged |
| Seqs.InsertSorted | components/MatrixBoard.tsx:37 | inserting into a key-sorted sequence keeps it sorted |
| Seqs.SortBy | components/MatrixBoard.tsx:37 | the sorted copy is a permutation of the input, in ascending key order |
| Seqs.InsertKeepsClass | components/MatrixBoard.tsx:37 | insertion puts the new element in front of the elements with its key and leaves their order alone |
| Seqs.SortByStable | components/MatrixBoard.tsx:37 | stability: the elements with any given key appear in the sorted copy in their input order |
| Guardrails.TimeSignalFromDue | App.tsx:45-56 | 60 iff \|due−now\| ≤ 24 h, 45 iff 24 h < \|due−now\| ≤ 72 h, 30 iff 72 h < … ≤ 7 d, 10 iff beyond 7 d |
| Guardrails.TimeSignalSymmetric | App.tsx:46-51 | an overdue date and a future date at the same distance get the same floor |
| Guardrails.TimeSignalMonotone | App.tsx:51-55 | a nearer due time never gets a lower floor |
| Guardrails.TimeSignalBoundaries | App.tsx:52-55 | each bucket bound is inclusive: exactly 24 h gives 60, exactly 72 h gives 45, exactly 7 d gives 30, one ms beyond gives the next bucket |
| Guardrails.MinImportanceFromText | App.tsx:58-67 | 80 iff a high-risk keyword occurs; 70 iff none does but a packaging or review keyword does; 0 iff none occurs (case-insensitive substring) |
| Guardrails.KeywordsLowerCase | App.tsx:60-62 | the keywords have no upper-case letters, so matching the lower-cased text is matching case-insensitively |
| Guardrails.MentionsIgnoresCase | App.tsx:59-65 | the keyword test gives the same answer on the text and on its lower-cased form, as the case-insensitive patterns do |
| Guardrails.MentionsWhenContains | App.tsx:59-63 | a keyword written in any ASCII case inside the text is found |
| Guardrails.HighRiskKeywordFloor | App.tsx:60-63 | any high-risk keyword, in any case, gives 80 whatever else the text contains |
| Guardrails.PackagingOrReviewKeywordFloor | App.tsx:61-65 | a packaging or review keyword gives at least 70 |
| Guardrails.NotMentionedByFirstChar | App.tsx:58-67 | a text holding no keyword's first character mentions none of them |
| Guardrails.InjuryAndLawsuitFloor | App.tsx:60-63 | a task mentioning 受伤 (injury) or 诉讼 (lawsuit) gets 80 |
| Guardrails.NonCompliantLabelFloor | App.tsx:60-63 | "标签不合规" gets 80, because "合规" is a high-risk keyword |
| Guardrails.ShortKeywordsMatchInsideWords | App.tsx:61-64 | short keywords match inside longer words: "price" (holds "ce") gets at least 70, "Syntax" (holds "tax") gets 80 |
| Guardrails.QuadrantFromScores | App.tsx:69-76 | the quadrant is urgent iff u ≥ 60 and important iff i ≥ 60, so all four quadrants are decided by the two thresholds |
| Guardrails.QuadrantBoundaries | App.tsx:70-75 | (60,60)→Q1, (59,60)→Q2, (60,59)→Q3, (59,59)→Q4 |
| Guardrails.QuadrantName | App.tsx:78-83 | each quadrant has its own fixed name: 立即执行, 制定计划, 授权他人, 暂不处理 |
| Guardrails.QuadrantLabel | App.tsx:121 | the label is the quadrant code, " - ", then the quadrant's name |
| Guardrails.QuadrantLabelInjective | App.tsx:78-83 | different quadrants have different labels |
| Guardrails.WithOriginal | App.tsx:110 | the notice comes first; the " 原分析：" clause with the original text follows iff the original was non-empty |
| Guardrails.ScoreOrZero | App.tsx:94-95 | a finite raw score is kept as it is; a non-finite one becomes 0 |
| Guardrails.DeltaText | App.tsx:108 | the delta label always ends with the minutes unit 分钟 |
| Guardrails.DeltaTextShowsDays | App.tsx:103-108 | the delta label contains 天 iff at least one whole day is left |
| Guardrails.DeltaTextMinutes | App.tsx:107-108 | the minutes can be read back as the number right before "分钟" |
| Guardrails.DeltaTextHours | App.tsx:106-108 | the hours can be read back as the number right after the day part (which is empty when there are no whole days) |
| Guardrails.DeltaTextDays | App.tsx:105-108 | when days are shown, the day count can be read back from the start of the delta |
| Guardrails.UrgencyDetail | App.tsx:103-110 | the detail opens with "（", holds the delta label of \|due − now\| split by `Clock.Decompose`, closes with "）" and ends with "+" |
| Guardrails.UrgencyNoticeDelta | App.tsx:103-110 | in the notice, the delta label of \|due − now\| sits right after the head and "（", and "）" follows it |
| Guardrails.UrgencyNotice | App.tsx:102-110 | the notice says 已逾期 iff the due time has passed and 临近 otherwise, and ends with "；已进行系统校正。" |
| Guardrails.UrgencyNoticeFloor | App.tsx:110 | the applied floor can be read back as the number right after the "+" and before the closing remark |
| Guardrails.ImportanceNotice | App.tsx:117 | the notice has the fixed head and tail, and the applied floor can be read back as the number between them |
| Guardrails.ImportanceNoticeInjective | App.tsx:117 | different floors give different notices |
| Guardrails.GuardUrgency | App.tsx:99-112 | with a truthy due date the score becomes max(u, floor), otherwise stays u; the text is rewritten iff the score changed, into the notice followed by the original |
| Guardrails.GuardImportance | App.tsx:114-118 | with a positive keyword floor the score becomes max(i, floor), otherwise stays i (even below 0); the text is rewritten iff the score changed |
| Guardrails.ClassifiedRecord | App.tsx:94-138 | the new record is well formed (quadrant from the final scores, matching label), open, not completed; it carries the given id, text, due time and timestamp; its scores and explanation texts are exactly those the urgency and importance guardrails produce from the finite-or-zero raw scores (`ScoreOrZero`) and the raw explanations taken as `x \|\| ''` (`TextOrEmpty`, `RawUrgency`, `RawImportance`, `RawNextAction`), so they are at least the raw scores and the floors |
| Guardrails.GuardrailsIdempotent | App.tsx:94-120 | running the guardrails again on a record they produced changes nothing, in particular no explanation is rewritten twice |
| Guardrails.NonFiniteScoresAreZero | App.tsx:94-95 | non-finite raw scores count as 0; with no floors that is Q4 |
| Guardrails.HighRiskOverridesClassifier | App.tsx:114-120 | a high-risk keyword lifts a lower importance to exactly 80, with the explanation rewritten |
| Guardrails.ShippingDelayTextHasNoKeyword | App.tsx:58-67 | the text "工厂出货延迟,明天必须到货" mentions no keyword, so its floor is 0 |
| Guardrails.ShippingDelayScenario | App.tsx:99-120 | a due time 20 h ahead and raw scores (30, 50) with no keyword give u 60, i 50 and Q3 |
| Store.KeepUniqueIds | App.tsx:150 | filtering never creates a duplicate id |
| Store.PrependKeepsInvariants | App.tsx:139 | putting a well-formed record with a fresh id in front keeps every record well formed and ids unique |
| Store.WithoutId | App.tsx:149-151 | the result is the in-order subsequence of records with another id: each is kept with all its copies and nothing else; no record with the id remains |
| Store.WithoutIdRemovesOne | App.tsx:149-151 | with unique ids, deleting an id that is present removes exactly one record |
| Store.WithoutIdPreserves | App.tsx:150 | deleting an unknown id changes nothing; unique ids stay unique |
| Store.Toggle | App.tsx:155-161 | the status flips; completedAt is now after open→done and null after done→open; every other field is unchanged |
| Store.ToggleKeepsWellFormed | App.tsx:156-160 | toggling keeps the record invariants (completedAt set iff done) |
| Store.ToggleTwiceRestoresOpen | App.tsx:153-165 | toggling an open task twice gives back the same record |
| Store.ToggledById | App.tsx:153-165 | same length; the records with the id are toggled, every other record stays at its place unchanged |
| Store.ToggledByIdPreserves | App.tsx:154-164 | an unknown id changes nothing; ids and record invariants are kept |
| Store.Filtered | App.tsx:173-177 | a blank query returns all tasks; otherwise exactly the tasks whose lower-cased text contains the lower-cased query, with all their copies, in their stored order |
| Store.OpenTasks | App.tsx:179 | exactly the open tasks of the search result, in their stored order |
| Store.FoundDone | App.tsx:180 | exactly the done tasks of the search result, in their stored order, before sorting |
| Store.DoneTasks | App.tsx:180 | exactly the done tasks of the search result, in descending completion time with a missing time counted as 0 (`CompletedOrZero`, the key `DoneKeyOf`) |
| Store.ErrorMessage | App.tsx:143 | the shown error is never empty, and it is the thrown message whenever that is non-empty |
| Store.TaskStore.constructor | App.tsx:11-14 | the store starts empty, not loading, with no error, and valid |
| Store.TaskStore.BeginClassify | App.tsx:86-87 | loading is set and the error cleared; tasks unchanged |
| Store.TaskStore.CompleteClassify | App.tsx:88-146 | on a result, exactly one guardrail-corrected record is put in front of the unchanged earlier tasks; on a thrown error the tasks stay and the error is set; loading always ends; validity is kept when the id is fresh |
| Store.TaskStore.Delete | App.tsx:149-151 | tasks become `WithoutId` of the old tasks; nothing else changes; validity is kept; in a valid store, deleting an id that is present removes exactly one record |
| Store.TaskStore.ToggleStatus | App.tsx:153-165 | tasks become `ToggledById` of the old tasks; nothing else changes; validity is kept |
| Store.TaskStore.ClearAll | App.tsx:167-171 | on confirmation the tasks become empty, otherwise unchanged; nothing else changes |
| Store.TaskStore.BoardColumn | App.tsx:257-258 | a board column holds the open tasks of its quadrant taken from all tasks, so the search query never hides a task from the board |
| Board.GetDueStatus | components/MatrixBoard.tsx:15-23 | overdue iff due < now; today iff not overdue and the same calendar day; within 24 h and within 72 h with exclusive bounds otherwise; unmarked for a missing or 0 due time or beyond |
| Board.TodayIsWithinADay | components/MatrixBoard.tsx:18-20 | under a fixed-offset calendar, "today" implies 0 ≤ due − now < 24 h |
| Board.GetDueLabel | components/MatrixBoard.tsx:25-34 | there is no tag exactly when the status is unmarked |
| Board.Compare | components/MatrixBoard.tsx:37-56 | the comparator is ≤ 0 iff the lexicographic key (status rank, dated first, due time or −u) is not above, and 0 iff the keys are equal: a total preorder |
| Board.EqualDueTimesTie | components/MatrixBoard.tsx:50 | two tasks due at the same moment compare equal both ways; u does not break the tie |
| Board.SortTasks | components/MatrixBoard.tsx:36-57 | the result is a permutation of the input and in the comparator's order |
| Board.SortTasksStable | components/MatrixBoard.tsx:37 | tasks that compare equal keep their input order |
| Board.BoardOrder | components/MatrixBoard.tsx:41-55 | overdue tasks come before all others and today's tasks before the rest; within a group dated tasks come before undated ones in ascending due time; undated tasks come in descending urgency |
| Board.StartsWithCodeIff | components/MatrixBoard.tsx:60 | a quadrant code starts with another code iff they are the same quadrant |
| Board.OpenInQuadrant | components/MatrixBoard.tsx:59-62 | selecting open tasks and then the quadrant prefix keeps exactly the open tasks of that quadrant |
| Board.GetTasksByQuadrant | components/MatrixBoard.tsx:59-62 | a column is exactly the open tasks of its quadrant, with all their copies, in display order |
| Board.ColumnsPartitionOpenTasks | components/MatrixBoard.tsx:13 | the four columns together hold every open task exactly once and nothing else |
| Countdown.TimeText | components/TaskDetailsModal.tsx:24-26 | '天' occurs iff there are whole days; the text ends in 小时 |
| Countdown.TimeTextHours | components/TaskDetailsModal.tsx:26 | the hour count can be read back as the number just before 小时 |
| Countdown.TimeTextDays | components/TaskDetailsModal.tsx:25 | when days are shown, their count can be read back from the start of the text |
| Countdown.RemainingText | components/TaskDetailsModal.tsx:28-31 | the text starts with "已逾期：" iff overdue and with "剩余时间：" iff not, followed by the time text |
| Countdown.GetRemainingTime | components/TaskDetailsModal.tsx:15-32 | nothing for a missing or 0 due time; overdue iff due < now; the prefix matches the flag; the time text is the day/hour split of \|due − now\|, naming days iff the distance is at least one day |

## Left out

- The classifier service (a network call) is not part of this model; its answer is the input value `ClassificationResult`, and a rejection is `Threw(message)`.
- The task-entry form, the header, all rendering, the modal's open/close state and `selectedTask` are user interface.
- Loading from and saving to `localStorage`, with the JSON parse, is I/O.
- The one-minute `setInterval` clock is a timer. `now` and the two `Date.now()` readings in `handleClassify` are parameters.
- `window.confirm` is I/O; its answer is the `confirmed` parameter of `ClearAll`.
- `crypto.randomUUID` is randomness; the fresh id is a parameter. Validity is kept only when the caller's id is fresh.
- The `await` in `handleClassify` is modelled as two steps, `BeginClassify` and `CompleteClassify`, so other operations may run in between. The interleavings themselves are not modelled.
- `toDateString` compares local calendar days, which depends on the time zone. `GetDueStatus` takes that comparison as the parameter `sameDay`; `SameLocalDay` is one fixed-offset instance.
- Scores are integers. Fractional scores from the classifier are not modelled; `NaN` and infinities are the `NonFinite` case.
- Case-insensitive matching folds ASCII letters only. Unicode case folding is not modelled; the keywords are ASCII or CJK.
- Regular-expression semantics are reduced to a substring search over literal keyword lists.
- Sorting a copy leaves the argument unchanged because sequences are values. The in-place array sort is not modelled.
- Guardrails.UrgencyNotice: the fixed words between the delta and the floor ("），按规则时间信号至少应为 +") are not stated character by character; the head, the delta, the floor and the closing remark are.
