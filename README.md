# AttendZen attendance arithmetic, in Dafny

A model of the arithmetic and list bookkeeping of AttendZen, a dashboard
where students record per-subject class attendance against a target
percentage:

- **AttendanceCalculator** (`attendance_calculator.dfy`): the calculator
  form's schema, and the projection its submit handler computes from classes
  attended, classes held and a target: the current percentage, whether the
  target is met, how many further classes may be missed, and how many
  consecutive classes must be attended (or `'unreachable'` at a 100% target).
  Numbers are exact reals, so the closed forms are proved optimal, and the
  floating-point guards of the handler (`Infinity`, `canMiss < 0`,
  `needed < 0`) are proved to be dead branches.
- **Percent** (`percent.dfy`): JavaScript's `Math.round` and the rounded
  ratio `whole > 0 ? Math.round(part / whole * 100) : 0` that the subject
  card, the chart and the dashboard each write out; proved equal to the
  integer quotient `(200·part + whole) / (2·whole)` and bounded by 0 and 100.
- **Subjects** (`subjects.dfy`): the `Subject` record and the partial update
  `{ ...s, ...newValues }`.
- **SubjectCard** (`subject_card.dfy`): a subject's rounded percentage, its
  "below target" flag, and the updates the Present and Absent buttons send.
- **Dashboard** (`dashboard.dfy`): the pooled overall attendance.
- **AttendanceCharts** (`attendance_charts.dfy`): the chart rows.
- **SubjectStore** (`subject_store.dfy`): the `useSubjects` hook as a class
  whose `subjects` field each operation replaces, with the storage key and
  the append, merge-by-id and filter-by-id transforms as functions.
- **AttendanceTips** (`attendance_tips.dfy`): the `shouldProvideTip`
  predicate and the flow's loop, with the text-generation prompt passed in
  as an arbitrary function from a record to an optional string.

Two behaviours at a history of 0 classes are kept as the code has them and
pinned by `AttendanceCalculator.NoClassesHeld`: below a 100% target the
calculator reports 0 classes needed although the shown percentage is 0, and
at 100% it reports `'unreachable'` although one attended class would give
100%. `UnreachableIsTruthful` and `NeededIsLeast` state what holds
once a class has been held.

## Model

| member | source | states |
|---|---|---|
| AttendanceCalculator.CountIssues | src/components/attendance-calculator.tsx:16-17 | a count field is clean exactly when it is a number, an integer and at least 0; every issue is on that field, at most two; a missing number gives only "Please enter a number.", a fraction is reported first with that same invalid-type message, and a negative value last with the field's own message |
| AttendanceCalculator.TargetIssues | src/components/attendance-calculator.tsx:18 | the target field is clean exactly when it is a number in [1, 100]; otherwise exactly one issue on it: "Please enter a number.", the below-1% message or the above-100% message |
| AttendanceCalculator.SchemaIssues | src/components/attendance-calculator.tsx:15-22 | no issue exactly when attended and total are integers at least 0, the target lies in [1, 100] and total ≥ attended; the "Total classes must be greater than or equal to attended classes." issue on `total` appears exactly when all three are numbers and total < attended |
| AttendanceCalculator.Validate | src/components/attendance-calculator.tsx:15-22 | the handler receives values exactly when the schema reports nothing, and then they are the entered numbers and satisfy the calculator's precondition; otherwise the non-empty issue list |
| AttendanceCalculator.SchemaRejectsTotalBelowAttended | src/components/attendance-calculator.tsx:19-22 | 5 attended of 3 held is rejected with only the total-field issue; 3 of 5 is accepted |
| AttendanceCalculator.FractionalCountMessage | src/components/attendance-calculator.tsx:16 | 2.5 attended is rejected with "Please enter a number." on that field alone; −1.5 gets that issue and then the negative-count one |
| AttendanceCalculator.Project | src/components/attendance-calculator.tsx:45-87 | a met target reports 0 classes needed; a missed one reports 0 classes that may be missed; 'unreachable' only on a missed target of 100 |
| AttendanceCalculator.CurrentPercentage | src/components/attendance-calculator.tsx:48 | 0 without classes, otherwise the value p with p·total = 100·attended, and within [0, 100] when attended ≤ total |
| AttendanceCalculator.MissFormula | src/components/attendance-calculator.tsx:51 | m further misses keep the target exactly when m is at most the floored closed form |
| AttendanceCalculator.NeededFormula | src/components/attendance-calculator.tsx:68 | the closed form is the break-even point n at which 100·(attended + n) = target·(total + n) |
| Percent.Ceil | src/components/attendance-calculator.tsx:79 | `Math.ceil` gives the least integer at or above its argument |
| AttendanceCalculator.TargetMetExactly | src/components/attendance-calculator.tsx:48-50 | the current percentage reaches the target exactly when classes were held and 100·attended ≥ target·total |
| AttendanceCalculator.HoldsAfterMissingBound | src/components/attendance-calculator.tsx:51 | missing m more classes keeps the target exactly when m ≤ attended·100/target − total |
| AttendanceCalculator.ReachedAfterAttendingBound | src/components/attendance-calculator.tsx:68 | attending n more classes reaches a target below 100 exactly when n ≥ (target·total − 100·attended)/(100 − target) |
| AttendanceCalculator.NeededNotNegative | src/components/attendance-calculator.tsx:68-69 | with the target missed and below 100, the needed-classes closed form is ≥ 0, and > 0 once a class was held |
| AttendanceCalculator.TargetMetIsExact | src/components/attendance-calculator.tsx:48-86 | the percentage is attended·100/total (0 with no classes); targetMet holds exactly when that percentage reaches the target, i.e. total > 0 and 100·attended ≥ target·total; 'unreachable' exactly on a missed target of 100 |
| AttendanceCalculator.FloatGuardsAreDead | src/components/attendance-calculator.tsx:50-69 | on the handler's own branch conditions: the target is positive (no `Infinity`), when the percentage reaches the target the floored closed form is never negative, and when it misses a target below 100 `needed` is never negative, so all three guards are dead |
| AttendanceCalculator.CanMissIsLargest | src/components/attendance-calculator.tsx:50-57 | when met, canMiss further misses keep the target, one more does not, and m misses keep it exactly when m ≤ canMiss |
| AttendanceCalculator.NeededIsLeast | src/components/attendance-calculator.tsx:68-85 | once a class was held and the target is missed below 100, neededToAttend consecutive attended classes reach the target, and n classes reach it exactly when n ≥ neededToAttend |
| AttendanceCalculator.NeededIsPositive | src/components/attendance-calculator.tsx:68-85 | once a class was held and the target is missed below 100, at least one class is needed |
| AttendanceCalculator.UnreachableIsTruthful | src/components/attendance-calculator.tsx:59-66 | once a class was held, 'unreachable' means no number of attended classes reaches the target |
| AttendanceCalculator.NoClassesHeld | src/components/attendance-calculator.tsx:48-85 | 0 of 0 gives percentage 0, not met, 0 needed and 0 to miss below 100, 'unreachable' at 100, though one attended class reaches any target |
| AttendanceCalculator.Scenarios | src/components/attendance-calculator.tsx:45-87 | 18/20 at 90 is met with 0 to miss; 10/20 at 90 needs 80; 5/5 at 100 is met; 5/6 at 100 is unreachable; 20/20 at 80 may miss 5 |
| Percent.Round | src/components/subject-card.tsx:19 | `Math.round` gives the integer within half a unit, halves going up |
| Percent.RoundedRatioIsIntegerDivision | src/components/subject-card.tsx:19 | rounding part/whole·100 equals the integer quotient (200·part + whole)/(2·whole) |
| Percent.RoundedPercent | src/components/subject-card.tsx:19 | 0 without classes, otherwise (200·part + whole)/(2·whole), and within [0, 100] when part ≤ whole |
| Subjects.ApplyPatch | src/hooks/use-subjects.ts:67 | the update keeps the id and takes each field from the patch when the patch carries it, from the subject otherwise |
| Subjects.ApplyPatchIdempotent | src/hooks/use-subjects.ts:67 | applying the same update twice is applying it once |
| SubjectCard.AttendancePercentage | src/components/subject-card.tsx:19 | 0 without classes, otherwise the rounded percentage as an integer quotient, within [0, 100] when attended ≤ total |
| SubjectCard.IsBelowTarget | src/components/subject-card.tsx:20 | a subject with no classes is never flagged |
| SubjectCard.BelowTargetExactly | src/components/subject-card.tsx:19-20 | for every target, fractional ones included, the flag holds exactly when classes were held and 200·attended + total < 2·total·⌈target⌉ |
| SubjectCard.RoundedComparisonExample | src/components/subject-card.tsx:19-20 | 1 of 8 shows 13% and is not below a 13% target |
| SubjectCard.PresentPatch | src/components/subject-card.tsx:22-24 | applied to the card's subject, adds one to attended and to total and changes nothing else |
| SubjectCard.AbsentPatch | src/components/subject-card.tsx:26-28 | applied to the card's subject, adds one to total and changes nothing else |
| SubjectCard.ButtonsKeepConsistent | src/components/subject-card.tsx:22-28 | Present on a consistent card leaves every entry it is applied to consistent; Absent does exactly when that entry has attended ≤ the card's total + 1 |
| SubjectCard.PresentNeverLowers | src/components/subject-card.tsx:19-24 | marking present never lowers the shown percentage |
| SubjectCard.AbsentNeverRaises | src/components/subject-card.tsx:19-28 | marking absent never raises the shown percentage |
| Dashboard.OverallAttendance | src/components/dashboard.tsx:16-20 | 0 when no classes were held, otherwise the rounded pooled ratio of summed attended over summed total |
| Dashboard.TotalAttended | src/components/dashboard.tsx:17 | the left fold of `attended` from 0: 0 for no subjects and a lone subject's own count, its sum behaviour stated by `TotalsOfConcat` and `TotalsCountEverySubject` |
| Dashboard.TotalClasses | src/components/dashboard.tsx:18 | the left fold of `total` from 0: 0 for no subjects and a lone subject's own count, its sum behaviour stated by `TotalsOfConcat` and `TotalsCountEverySubject` |
| Dashboard.TotalsCountEverySubject | src/components/dashboard.tsx:17-18 | both folds include every subject's count, and each total is 0 exactly when every subject's count is 0 |
| Dashboard.TotalsOfConcat | src/components/dashboard.tsx:17-18 | folding a concatenation adds the folds of its two parts |
| Dashboard.NoSubjectsShowZero | src/components/dashboard.tsx:19 | an empty subject list shows 0 |
| Dashboard.TotalsConsistent | src/components/dashboard.tsx:17-18 | the summed attended count never exceeds the summed total when each subject's does not |
| Dashboard.OverallInRange | src/components/dashboard.tsx:17-19 | the overall figure lies in [0, 100] when every subject is consistent |
| Dashboard.TotalsOfPermutation | src/components/dashboard.tsx:17-18 | both sums are the same for any reordering of the subjects |
| Dashboard.OverallIgnoresOrder | src/components/dashboard.tsx:16-20 | the overall figure is the same for any reordering of the subjects |
| Dashboard.PooledNotAveraged | src/components/dashboard.tsx:17-19 | 1/1 and 0/3 pool to 25%, not the 50% average of their percentages |
| AttendanceCharts.ChartData | src/components/attendance-charts.tsx:35-41 | one row per subject in order, carrying its name and unchanged target, and the card's rounded percentage (0 without classes, within [0, 100] when consistent) |
| SubjectStore.StorageKey | src/hooks/use-subjects.ts:20 | the key is "subjects_" followed by the user id when one is present and non-empty, by "guest" otherwise |
| SubjectStore.LoggedIn | src/hooks/use-subjects.ts:20 | the user id counts as logged in exactly unless it is missing or the empty string, the two falsy values of an optional string in JavaScript; the same test guards lines 52, 65 and 72 |
| SubjectStore.StorageKeysIsolateUsers | src/hooks/use-subjects.ts:20 | two different logged-in users get different keys |
| SubjectStore.EmptyIdIsGuest | src/hooks/use-subjects.ts:20 | an empty id and a missing id both give "subjects_guest" |
| SubjectStore.NewSubject | src/hooks/use-subjects.ts:55-60 | the new record carries the given id, name and target and 0 attended of 0 |
| SubjectStore.Merged | src/hooks/use-subjects.ts:66-68 | same length and order; every entry with the id takes the update, every other is unchanged, and no id changes |
| SubjectStore.UpdateAbsentIsIdentity | src/hooks/use-subjects.ts:67 | updating an id no entry carries changes nothing |
| SubjectStore.UpdateIdempotent | src/hooks/use-subjects.ts:67 | repeating an update changes nothing more |
| SubjectStore.Removed | src/hooks/use-subjects.ts:73 | exactly the entries without the id remain, and the list never grows |
| SubjectStore.RemovedOfConcat | src/hooks/use-subjects.ts:73 | deletion distributes over concatenation, so the kept entries stay in order |
| SubjectStore.RemoveAbsentIsIdentity | src/hooks/use-subjects.ts:73 | deleting an id no entry carries changes nothing |
| SubjectStore.RemoveIdempotent | src/hooks/use-subjects.ts:73 | deleting twice is deleting once |
| SubjectStore.RemovedLength | src/hooks/use-subjects.ts:73 | deletion removes exactly as many entries as carry the id, all of them when ids collide |
| SubjectStore.OperationsKeepConsistent | src/hooks/use-subjects.ts:51-74 | appending, deleting, and an update that writes consistent counts keep every entry's attended ≤ total |
| SubjectStore.Store.constructor | src/hooks/use-subjects.ts:22-43 | after loading, a logged-in user has the stored list and a guest the empty list |
| SubjectStore.Store.AddSubject | src/hooks/use-subjects.ts:51-62 | a logged-in user's list gains exactly the new subject at its end; a guest's is unchanged |
| SubjectStore.Store.UpdateSubject | src/hooks/use-subjects.ts:64-69 | a logged-in user's list becomes the merged list; a guest's is unchanged |
| SubjectStore.Store.DeleteSubject | src/hooks/use-subjects.ts:71-74 | a logged-in user's list becomes the filtered list; a guest's is unchanged |
| AttendanceTips.ShouldProvideTip | src/ai/flows/generate-attendance-tips.ts:45-50 | a tip is warranted exactly when 100·attended < target·total, never at a 0% target |
| AttendanceTips.ValidRecord | src/ai/flows/generate-attendance-tips.ts:15-20 | a record passing the schema has a non-zero total, so the tool's division is defined |
| AttendanceTips.AllValid | src/ai/flows/generate-attendance-tips.ts:22-24 | the array passes exactly when every record in it passes the record schema |
| AttendanceTips.TipFor | src/ai/flows/generate-attendance-tips.ts:81-86 | a record yields one tip, its prompt output under its subject, exactly when a tip is warranted and the output is present and non-empty; none otherwise |
| AttendanceTips.Tips | src/ai/flows/generate-attendance-tips.ts:78-90 | never more tips than records, and no tip text is empty |
| AttendanceTips.TipOrigins | src/ai/flows/generate-attendance-tips.ts:80-88 | each tip comes from a distinct record, in input order, that warranted a tip and whose prompt output it is; every record whose output was kept is represented |
| AttendanceTips.GenerateTipsLoop | src/ai/flows/generate-attendance-tips.ts:77-91 | the loop returns exactly the tips of the record-by-record specification |
| AttendanceTips.GenerateAttendanceTips | src/ai/flows/generate-attendance-tips.ts:15-20 | the call succeeds exactly when every record is in range (attended ≥ 0, total > 0, target in [0, 100]), and then returns the loop's tips |

## Left out

- Rendering, form wiring, toasts, dialogs, routing and the header: user interface, no logic beyond what is modelled.
- `parseFloat(currentPercentage.toFixed(2))` (src/components/attendance-calculator.tsx:53, 61, 72, 81): display rounding of a float; the model keeps the exact percentage. IEEE-754 effects in general are not modelled; numbers are exact reals, which is why the three floating-point guards are dead in the model.
- Which issue the form displays: the resolver keeps the first issue per field, while `Validate` returns every issue zod reports, in order.
- The pluralised result messages (src/components/attendance-calculator.tsx:150-165): presentation only.
- Reading and writing the browser's storage and parsing its JSON (src/hooks/use-subjects.ts:22-49): the stored list is a parameter of `SubjectStore.Store.constructor`, and saving is not modelled. The `loading` flag is left out with it.
- The mock authentication provider (src/hooks/use-auth.tsx): the user id is a parameter of the store.
- Id generation from the clock (src/hooks/use-subjects.ts:57): the id is a parameter of `AddSubject`, so ids may collide and update and delete act on every entry that shares one.
- The genkit prompt, tool and flow machinery and the text-generation call (src/ai/flows/generate-attendance-tips.ts:37-44, 53-68, 83): the prompt is an arbitrary function parameter; only the predicate, the schema bounds and the loop are modelled. Asynchrony and network failure are not modelled.
- AttendanceTips.GenerateAttendanceTips: counts are integers in the model, so the schema's integer checks on attended, total and targetAttendance cannot fail and only the range checks are modelled.
- src/components/ai-tips-card.tsx: glue around the network call. It sends subjects with 0 classes held, which the flow's schema rejects as a whole.
- src/components/add-subject-dialog.tsx: its name and target bounds are not preconditions of `AddSubject`, which (like the hook) accepts any name and target.
- The text-generation call is modelled as a function of the record, so two identical records always receive the same tip; a real generator need not answer alike twice. No proved property depends on this: `TipOrigins` only relates each tip to the output for its own record.
- Double-precision rounding in the calculator: with 29 attended of 100 at a 29% target, `(29 / 100) * 100` is 28.999999999999996 in doubles, so the handler takes the not-met branch, `needed` comes out exactly 0 and the `needed < 0` guard does not catch it; it reports "not met, attend 0 more" where the exact model reports the target met. Modelling IEEE-754 division is outside this model.
- AttendanceCalculator.NeededIsLeast: stated only once a class has been held. At 0 of 0 the reach predicate already holds for 0 further classes although the handler shows 0%, so the lemma would certify the reported 0 as least; `NoClassesHeld` pins that 0-of-0 output instead, together with the fact that one attended class reaches any target.
- src/components/dashboard.tsx:14 calls the hook without a user id, so on that screen every add, update and delete is a no-op under the guest key; the wiring between screens is not part of this model.
