# Substitution eligibility and assignment — a Dafny model

This project models the core of a small Django application that manages
class substitutions between lecturers. It has five tables: qualifications,
subjects, lecturers, class sessions, and one substitution row per session.
The core decides whether a lecturer may take over a session:

- Is the lecturer allowed to teach the subject?
- Are they free at that time?
- Does the extra session stay within their weekly limits on substitutions
  and hours?

If the checks pass, the core records the assignment.

The model covers:

- the interval and week helpers of `views.py` and `services.py` (modules
  `Time` and `Queries`);
- the entities, their defaults and their string forms (`Models`);
- the preview, the commit and the calendar filter of `views.py` (`Views`);
- the database as one object whose methods preview and commit a
  substitution and carry out the `on_delete` rules (`Store`);
- the two eligibility checks of `services.py` (`Services`);
- the ranking of the statistics page (`Ranking`);
- the validation and labels of `forms.py` (`Forms`).

## Representation

- **Time.** Instants are whole minutes counted from a local Monday 00:00.
  The week of an instant starts at the largest multiple of 10080 minutes
  not above it.
- **Hours.** Hours are `minutes / 60` as an exact real.
- **Sessions.** The session table is a sequence with distinct ids.
- **Substitutions.** The substitution table is a map from session id to
  `Option<lecturer id>`:
  - a missing key means the session has no substitution row;
  - `None` means a row without a substitute (the `SET_NULL` state, printed
    "BRAK").
- **Queries.** ORM queries are values of a small `Query` datatype. `Filter`
  evaluates a query over the table in table order.

## Where the code's paths differ

The model follows the code. Each difference below is stated as a lemma,
except the last, which the model does not follow (see "## Left out"):

- **The preview counts the session itself.** `views.py` defines
  `api_substitution_preview` twice; the second definition (line 417) is
  the one in effect. It does not leave the session under evaluation out of
  the lecturer's own load (`Views.PreviewCountsSessionItself`).
  `evaluate_substitution` does leave it out (`Services.EvaluateIgnoresItself`).
- **`can_take_substitution` reads 0 literally.** It compares the limits as
  they are, so a limit of 0 means no capacity rather than "unlimited"
  (`Services.CanTakeZeroLimitRejects`). The preview, the commit and
  `evaluate_substitution` all treat 0 as "no limit".
- **Sessions given away still count in `services.py`.** `has_time_conflict`
  and `weekly_counts` count a lecturer's own sessions even when someone
  else substitutes them (`Services.OwnSessionConflictsInCanTake`,
  `Services.WeeklyLoadCoversDistinctLoad`). `views.py` leaves them out:
  the docstring of `_active_slots` (views.py:582-585) counts as "really
  taught" only own sessions nobody else took plus the sessions taken, and
  the preview's comments at views.py:437 and :456 say the same of its
  "real" load.
- **The commit and the preview count hours differently.**
  - The commit counts every active slot that overlaps the week.
  - The preview counts the slots that start in the week.
  - The commit's load is never smaller (`Views.PreviewLoadWithinCommitLoad`).
  - So a commit can refuse what the preview showed as ok, but never the
    other way round (`Views.CommitAcceptedPreviewOk`).
  - Both hold only when every session ends after it starts (next item).
- **Sessions may end before they start.** The session form that
  `session_create` uses (views.py:43-50) has no `clean`; only
  `ClassSessionForm` of `forms.py` checks `start < end`, and no view uses
  it. A session with a negative duration lowers every load it is counted
  in, and a load that counts it twice drops below one that counts it
  once. Five lemmas therefore require `ProperSessions`, and one concrete
  table shows each of them failing without it:
  - the commit accepts what the preview refuses
    (`Views.BackwardsSessionCommitBeatsPreview`);
  - `can_take_substitution` accepts what `evaluate_substitution` refuses
    (`Services.BackwardsSessionCanTakeBeatsEvaluate`);
  - "all teaching" shows fewer minutes than "substitutions only"
    (`Ranking.BackwardsSessionAllTeachingBelowSubs`).
- **`_active_slots` lists one session twice.** A session that a lecturer
  substitutes for themself appears twice in their active slots
  (`Views.SelfSubstitutedSessionListedTwice`).
- **Re-assigning the current substitute fails.** The commit refuses it as
  a calendar collision, because the session collides with itself
  (`Views.ReassignSameSubstituteCollides`).
- **Re-saving a session through the form fails.** `ClassSessionForm.clean`
  does not leave out the row being edited, so saving an existing session
  again reports the lecturer as busy (`Forms.CleanEditCollidesWithItself`).
- **The two overlap formulas differ on empty intervals.** `_overlaps` of
  `views.py` and `overlaps` of `services.py` agree on non-empty intervals
  and differ on empty ones (`Time.OverlapFormulasAgree`,
  `Time.OverlapFormulasDifferOnEmpty`).
- **`services.py` names a relation that does not exist.** Its lookups
  `substitutions__substitute` and `substitute` do not match the names in
  `models.py` (`related_name='substitution'` at models.py:56, the field
  `substitute_lecturer` at models.py:58). As written, Django rejects each
  such filter with `FieldError`, and the `except FieldError` fallback of
  `evaluate_substitution` (services.py:84-88 and 114-118) uses
  `substitution__substitute`, which fails the same way. The model does
  not follow this: it gives the lookups the meaning of the existing
  relation, "sessions whose substitution row names this lecturer".

## Model

| member | source | states |
|---|---|---|
| Time.WeekStart | zastepstwa_min_project/zastepstwa/views.py:59-65 | The week start is a Monday 00:00 (a multiple of a week) at or before t, and t lies less than a week after it |
| Time.WeekBounds | zastepstwa_min_project/zastepstwa/services.py:54-61 | The window contains t, is exactly seven days long, and starts on a Monday midnight |
| Time.WeekStartUnique | zastepstwa_min_project/zastepstwa/views.py:61-63 | The only Monday midnight whose week contains t is the one the week computation picks |
| Time.SameWeek | zastepstwa_min_project/zastepstwa/services.py:9-14 | Every instant inside a week window has that same window |
| Time.Overlaps | zastepstwa_min_project/zastepstwa/views.py:68-69 | `not (a_end <= b_start or b_end <= a_start)` holds iff aStart < bEnd and bStart < aEnd |
| Time.OverlapsByBounds | zastepstwa_min_project/zastepstwa/services.py:16-17 | `max(starts) < min(ends)` holds iff the intervals cross and both are non-empty |
| Time.OverlapsSymmetricNotTouching | zastepstwa_min_project/zastepstwa/views.py:68-69 | Overlap is symmetric; intervals that only touch (aEnd == bStart) overlap under neither formula |
| Time.OverlapFormulasAgree | zastepstwa_min_project/zastepstwa/services.py:16-17 | On non-empty intervals the services.py formula and the views.py formula give the same answer |
| Time.OverlapFormulasDifferOnEmpty | zastepstwa_min_project/zastepstwa/services.py:16-17 | The empty interval [5, 5) overlaps [0, 10) under the views.py formula and not under the services.py one |
| Time.HoursBetween | zastepstwa_min_project/zastepstwa/views.py:55-56 | The hours between a and b, times 60, are the minutes b - a |
| Time.HoursMonotone | zastepstwa_min_project/zastepstwa/services.py:49-50 | A larger load in minutes is never fewer hours, so the hours test is monotone in the load |
| Models.NewLecturer | zastepstwa_min_project/zastepstwa/models.py:23-37 | A new lecturer has the given names, no qualifications or subjects, and the defaults 3 substitutions and 20.0 hours per week |
| Models.LecturerStr | zastepstwa_min_project/zastepstwa/models.py:39-40 | The name is the first name, one space, the last name: the part before the space is the first name and the part after it the last name |
| Models.QualificationStr | zastepstwa_min_project/zastepstwa/models.py:7-8 | The code, " – ", then the name |
| Models.SubjectStr | zastepstwa_min_project/zastepstwa/models.py:19-20 | The code, ": ", then the name |
| Models.SubstituteLabel | zastepstwa_min_project/zastepstwa/models.py:67-68 | The label is "BRAK" exactly when there is no substitute, and otherwise the substitute's name |
| Models.SubstitutionStr | zastepstwa_min_project/zastepstwa/models.py:67-69 | "Zastępstwo(", the session id in digits that parse back to the id, ") → ", then the substitute's label |
| Text.SortStrings | zastepstwa_min_project/zastepstwa/forms.py:92 | `sorted(items)` is an ordered permutation of the items |
| Text.SortedPrefix | zastepstwa_min_project/zastepstwa/forms.py:97 | The first k of a sorted list are sorted, taken from it, and none comes after an item left out |
| Text.ParseNatToString | zastepstwa_min_project/zastepstwa/forms.py:98 | The decimal digits printed for a count read back as that count |
| Queries.IsFreeOf | zastepstwa_min_project/zastepstwa/views.py:450-454 | The loop with early exit answers free iff no slot overlaps [start, end) |
| Queries.TotalMinutes | zastepstwa_min_project/zastepstwa/services.py:120-126 | The summing loop yields the total length of the sessions |
| Queries.TotalMinutesOverlapping | zastepstwa_min_project/zastepstwa/views.py:648-652 | The loop adds exactly the slots that overlap the week window |
| Queries.SubstitutionsInWeekAfterAssign | zastepstwa_min_project/zastepstwa/views.py:655-661 | After a session without substitute l gets l, l's substitution count in that session's week grows by exactly one |
| Views.PreviewSlotsMembership | zastepstwa_min_project/zastepstwa/views.py:439-448 | A session is a preview slot iff it is l's own with no substitution row, or l is its substitute |
| Views.ActiveSlotsMembership | zastepstwa_min_project/zastepstwa/views.py:581-596 | A session is an active slot iff it is l's own with no row or with l as substitute, or l substitutes it |
| Views.ActiveSlots | zastepstwa_min_project/zastepstwa/views.py:581-596 | `_active_slots`; its members are stated by Views.ActiveSlotsMembership |
| Views.SelfSubstitutedSessionListedTwice | zastepstwa_min_project/zastepstwa/views.py:586-596 | An own session that l substitutes for themself occurs at least twice among l's active slots |
| Views.PreviewVerdict | zastepstwa_min_project/zastepstwa/views.py:417-508 | The preview's fields on the tables: authorized iff the subject is the lecturer's; free iff no preview slot overlaps; count and load include this session; subs ok iff the limit is 0 or the count after is within it; hours ok iff the limit is 0 or the hours after are within it; ok is the conjunction |
| Views.PreviewOf | zastepstwa_min_project/zastepstwa/views.py:417-508 | The preview report; its meaning on the tables is stated by Views.PreviewVerdict |
| Views.PreviewCountsSessionItself | zastepstwa_min_project/zastepstwa/views.py:450-454 | A session already in l's real load makes the preview report l busy for it |
| Views.CommitChecksInOrder | zastepstwa_min_project/zastepstwa/views.py:626-667 | The commit refuses for the first failing check (subject, collision with an active slot, nonzero count limit, nonzero hours limit), and accepts iff none fails |
| Views.CommitCheck | zastepstwa_min_project/zastepstwa/views.py:626-667 | The commit's four checks; stated as iff clauses by Views.CommitChecksInOrder |
| Views.ReassignSameSubstituteCollides | zastepstwa_min_project/zastepstwa/views.py:630-633 | Re-assigning the current substitute of a non-empty session is refused as a calendar collision |
| Views.PreviewLoadWithinCommitLoad | zastepstwa_min_project/zastepstwa/views.py:648-653 | When every session ends after it starts, the preview's weekly load never exceeds the commit's |
| Views.CommitLoadAsTableFilters | zastepstwa_min_project/zastepstwa/views.py:648-653 | The commit's load is the minutes of own active slots plus taken slots overlapping the week, plus this session |
| Views.PreviewWeekSlotsAreActive | zastepstwa_min_project/zastepstwa/views.py:459-467 | A session the preview counts in the week is an active slot that overlaps the week |
| Views.CommitAcceptedPreviewOk | zastepstwa_min_project/zastepstwa/views.py:599-673 | When every session ends after it starts, whatever the commit accepts the preview reports ok for the same lecturer and session |
| Views.BackwardsActiveSlots | zastepstwa_min_project/zastepstwa/views.py:581-596 | An own session the lecturer substitutes for themself is listed twice among the active slots of a concrete table |
| Views.BackwardsWindow | zastepstwa_min_project/zastepstwa/views.py:648-652 | Both copies of the backwards session overlap its week and together count -100 minutes |
| Views.BackwardsCommitLoad | zastepstwa_min_project/zastepstwa/views.py:648-653 | With a session that ends 50 minutes before it starts, listed twice, the commit's load of a two-hour session is 20 minutes |
| Views.BackwardsPreviewLoad | zastepstwa_min_project/zastepstwa/views.py:456-474 | On the same table the preview counts that session once: -50 minutes and one substitution in the week |
| Views.BackwardsSessionCommitBeatsPreview | zastepstwa_min_project/zastepstwa/views.py:43-50 | The session form lets a backwards session in; the table is then not proper, the commit's load is below the preview's, and the commit accepts what the preview refuses |
| Views.FindSession | zastepstwa_min_project/zastepstwa/views.py:617 | The lookup returns a session of the table with that id, or none when no session has it (404) |
| Views.CommitWrites | zastepstwa_min_project/zastepstwa/views.py:619-672 | Clearing leaves the session without a row, saving records the target, any other answer writes nothing, other sessions' rows never change |
| Views.CommitOutcome | zastepstwa_min_project/zastepstwa/views.py:599-673 | The answer of `api_substitutions`; stated with its writes by Views.CommitWrites and Store.Store.Commit |
| Views.SubsAfterCommit | zastepstwa_min_project/zastepstwa/views.py:599-673 | The Substitution table after the commit; stated by Views.CommitWrites |
| Views.AssignThenPreviewCounts | zastepstwa_min_project/zastepstwa/views.py:669-672 | After a saved commit, the preview of any session in that week counts one more substitution for the new substitute |
| Views.EventsSelection | zastepstwa_min_project/zastepstwa/views.py:116-123 | A session is listed iff it overlaps the range (when both bounds are given) and the lecturer teaches or substitutes it (when given) |
| Views.Events | zastepstwa_min_project/zastepstwa/views.py:116-123 | The calendar filter; its members are stated by Views.EventsSelection |
| Views.CommitShowsOnSubstituteCalendar | zastepstwa_min_project/zastepstwa/views.py:119-123 | After a saved commit the session is on the substitute's calendar for any range it overlaps |
| Store.WithoutSubject | zastepstwa_min_project/zastepstwa/models.py:33 | Removing a subject from the lecturers keeps every lecturer and drops that subject from each subject list only |
| Store.DeleteSubjectValid | zastepstwa_min_project/zastepstwa/models.py:44 | Deleting a subject with its sessions and their substitution rows keeps every database constraint |
| Store.WithoutSubstitute | zastepstwa_min_project/zastepstwa/models.py:58-64 | Rows of deleted sessions go; a row naming the deleted lecturer keeps its session with no substitute; no row names that lecturer |
| Store.DeleteLecturerValid | zastepstwa_min_project/zastepstwa/models.py:45 | Deleting a lecturer with their sessions (CASCADE) and emptying the rows naming them (SET_NULL) keeps every database constraint |
| Store.UpsertValid | zastepstwa_min_project/zastepstwa/views.py:670-672 | Recording an existing lecturer as substitute of an existing session keeps every database constraint |
| Store.ClearValid | zastepstwa_min_project/zastepstwa/views.py:621 | Deleting a session's substitution row keeps every database constraint |
| Store.Store.constructor | zastepstwa_min_project/zastepstwa/models.py:3-69 | An empty database satisfies the constraints |
| Store.Store.AddQualification | zastepstwa_min_project/zastepstwa/models.py:4 | The row is saved iff its code is new; nothing else changes |
| Store.Store.AddSubject | zastepstwa_min_project/zastepstwa/models.py:12 | The row is saved iff its code is new; nothing else changes |
| Store.Store.AddLecturer | zastepstwa_min_project/zastepstwa/models.py:36-37 | The new lecturer gets limits 3 and 20.0; constraints hold |
| Store.Store.EditLecturer | zastepstwa_min_project/zastepstwa/views.py:30-41 | Saving the lecturer form replaces names, e-mail, subjects and both limits of that lecturer only, keeps the qualifications, and keeps the constraints |
| Store.Store.AddSession | zastepstwa_min_project/zastepstwa/models.py:43-48 | The session is appended with existing subject and lecturer; constraints hold |
| Store.Store.Preview | zastepstwa_min_project/zastepstwa/views.py:417-508 | The loops compute the preview report of the tables, or nothing when the session or lecturer is missing; nothing is written |
| Store.Store.CheckCandidate | zastepstwa_min_project/zastepstwa/views.py:626-667 | The subject test, the collision loop, the count and the hours loop give exactly the commit's first failing check, or none |
| Store.Store.Commit | zastepstwa_min_project/zastepstwa/views.py:599-673 | The answer is the commit outcome for the tables before the call; the substitution table becomes the one that outcome writes; the other tables are unchanged; constraints hold |
| Store.Store.DeleteSession | zastepstwa_min_project/zastepstwa/models.py:56 | The session goes and its substitution row with it (CASCADE); constraints hold |
| Store.Store.DeleteLecturer | zastepstwa_min_project/zastepstwa/models.py:58-64 | The lecturer's own sessions and their rows go (CASCADE); rows naming them as substitute stay with no substitute (SET_NULL) |
| Store.Store.DeleteSubject | zastepstwa_min_project/zastepstwa/models.py:44 | The subject's sessions and their rows go (CASCADE) and it leaves every lecturer's subject list |
| Store.Store.DeleteQualification | zastepstwa_min_project/zastepstwa/models.py:15-16 | The qualification leaves every lecturer's and every subject's list; sessions and substitutions are unchanged |
| Services.HasQualificationsMeaning | zastepstwa_min_project/zastepstwa/services.py:19-24 | Qualified iff the required set is a subset of the held set; always so when nothing is required |
| Services.HasQualifications | zastepstwa_min_project/zastepstwa/services.py:19-24 | `has_qualifications`; stated by Services.HasQualificationsMeaning |
| Services.OverlappingMeaning | zastepstwa_min_project/zastepstwa/services.py:28-29 | The two conflict queries select the own, respectively substituted, sessions strictly overlapping the interval |
| Services.HasTimeConflictMeaning | zastepstwa_min_project/zastepstwa/services.py:26-30 | A conflict iff some session l teaches (even given away) or substitutes overlaps the interval |
| Services.HasTimeConflict | zastepstwa_min_project/zastepstwa/services.py:26-30 | `has_time_conflict`; stated by Services.HasTimeConflictMeaning |
| Services.WeeklyLoadCoversDistinctLoad | zastepstwa_min_project/zastepstwa/services.py:32-38 | When every session ends after it starts, the weekly minutes are at least the minutes of l's own and taken sessions of the week, counted once each |
| Services.WeeklyCounts | zastepstwa_min_project/zastepstwa/services.py:32-38 | `weekly_counts`; compared with the distinct load by Services.WeeklyLoadCoversDistinctLoad |
| Services.CanTakeChecksInOrder | zastepstwa_min_project/zastepstwa/services.py:40-52 | Refused for the first failing check (qualifications, conflict, count limit, hours limit), accepted iff none fails |
| Services.CanTakeSubstitution | zastepstwa_min_project/zastepstwa/services.py:40-52 | `can_take_substitution`; stated as iff clauses by Services.CanTakeChecksInOrder |
| Services.CanTakeZeroLimitRejects | zastepstwa_min_project/zastepstwa/services.py:47-48 | A substitution limit of 0 never accepts |
| Services.OwnSessionConflictsInCanTake | zastepstwa_min_project/zastepstwa/services.py:43-44 | A qualified lecturer's own non-empty session is refused as a schedule conflict, even if given away |
| Services.EvaluateSubstitution | zastepstwa_min_project/zastepstwa/services.py:67-154 | The loops compute the evaluation as specified by Evaluate |
| Services.EvaluateVerdict | zastepstwa_min_project/zastepstwa/services.py:75-135 | Has-required iff subset; free iff no other own or taken session overlaps; the current count is the week's substitution rows naming the lecturer; the week set holds exactly the distinct own-or-taken sessions starting in the week of this session, and the current minutes are their sum; this session's minutes are its length; the after-values add this session; subs ok iff the limit is 0 or the count after is within it; hours ok iff the limit is 0 or the hours after are within it; ok is the conjunction |
| Services.WeekSessionsMeaning | zastepstwa_min_project/zastepstwa/services.py:109-118 | A row is in the week query iff it is the lecturer's own or taken by them and starts in the same week as the session |
| Services.Evaluate | zastepstwa_min_project/zastepstwa/services.py:67-154 | `evaluate_substitution`; stated by Services.EvaluateVerdict and computed by Services.EvaluateSubstitution |
| Services.ConflictQueryMeaning | zastepstwa_min_project/zastepstwa/services.py:90-92 | The conflict query selects the other sessions l teaches or substitutes that overlap s |
| Services.EvaluateIgnoresItself | zastepstwa_min_project/zastepstwa/services.py:90-93 | The evaluated session never counts as a conflict with itself |
| Services.CanTakeAcceptImpliesEvaluateOk | zastepstwa_min_project/zastepstwa/services.py:67-135 | When every session ends after it starts, whatever `can_take_substitution` accepts `evaluate_substitution` reports ok |
| Services.BackwardsWeekLoads | zastepstwa_min_project/zastepstwa/services.py:32-38 | On the backwards table `weekly_counts` counts the self-substituted session twice (-100 minutes), the distinct week load once (-50) |
| Services.BackwardsWeekSelections | zastepstwa_min_project/zastepstwa/services.py:32-38 | On the backwards table each week query of lecturer 1 selects that session alone |
| Services.BackwardsNoConflict | zastepstwa_min_project/zastepstwa/services.py:26-30 | On the backwards table lecturer 1 has no conflict with the two-hour session |
| Services.BackwardsSessionCanTakeBeatsEvaluate | zastepstwa_min_project/zastepstwa/services.py:67-135 | Without proper sessions `weekly_counts` falls below the distinct load, and `can_take_substitution` accepts what `evaluate_substitution` refuses |
| Ranking.RowForSnoc | zastepstwa_min_project/zastepstwa/views.py:251-283 | Aggregating one more session changes a lecturer's row as the loop body does |
| Ranking.RankingQueriesMeaning | zastepstwa_min_project/zastepstwa/views.py:244-262 | The ranking's queries select the sessions of the period l substitutes, and l's own of the period without a substitution row |
| Ranking.RowFor | zastepstwa_min_project/zastepstwa/views.py:242-287 | A lecturer's ranking row; built up by Ranking.RowForSnoc and Ranking.Aggregate |
| Ranking.TakenInSnoc | zastepstwa_min_project/zastepstwa/views.py:244-255 | One more session adds one to the count and its minutes to the sum of l's taken sessions iff l substitutes it and it starts in the period |
| Ranking.OwnFreeInSnoc | zastepstwa_min_project/zastepstwa/views.py:258-269 | One more session adds its minutes to l's own sessions without a substitution row iff it is one of them and starts in the period |
| Ranking.TallySession | zastepstwa_min_project/zastepstwa/views.py:251-283 | One session's in-place update of the dictionary: its substitute, or under scope all its unsubstituted lecturer |
| Ranking.Tally | zastepstwa_min_project/zastepstwa/views.py:251-283 | One session's update of the dictionary; computed by Ranking.TallySession and related to RowFor by Ranking.TallyRows |
| Ranking.TallyRows | zastepstwa_min_project/zastepstwa/views.py:253-283 | A tally keeps the keys and updates each row as one session adds to it |
| Ranking.Aggregate | zastepstwa_min_project/zastepstwa/views.py:230-287 | Every lecturer has a row, and it holds the count and the minutes of the period for the scope |
| Ranking.InsertRow | zastepstwa_min_project/zastepstwa/views.py:292 | Inserting a row keeps the ranking ordered and adds exactly that row |
| Ranking.SortRanking | zastepstwa_min_project/zastepstwa/views.py:289-292 | The sorted ranking is ordered by the key in the chosen direction and is a permutation of the rows |
| Ranking.StatsRanking | zastepstwa_min_project/zastepstwa/views.py:219-292 | Given the lecturer table listed once each, the ranking is a permutation of the per-lecturer rows, ordered by the chosen metric and direction; it has one row per lecturer of the table, each exactly once, and every row is its lecturer's aggregate |
| Ranking.ListingLength | zastepstwa_min_project/zastepstwa/views.py:231-232 | A list of the lecturers without repeats is as long as the lecturer table |
| Ranking.RankingRowsPerLecturer | zastepstwa_min_project/zastepstwa/views.py:230-238 | Every lecturer of the table has exactly one row, the ranking is as long as the table, and every row is its lecturer's aggregate |
| Ranking.RowOnceInExpected | zastepstwa_min_project/zastepstwa/views.py:290 | Each lecturer's row occurs once in the rows before sorting |
| Ranking.AllTeachingAtLeastSubs | zastepstwa_min_project/zastepstwa/views.py:242-283 | When every session ends after it starts, scope all never shows fewer minutes than scope subs; the count is the same |
| Ranking.BackwardsSessionAllTeachingBelowSubs | zastepstwa_min_project/zastepstwa/views.py:242-283 | Without proper sessions scope all can show fewer minutes than scope subs |
| Forms.CleanVerdict | zastepstwa_min_project/zastepstwa/forms.py:22-46 | Refused iff end not after start; else refused iff the lecturer has an own session overlapping; otherwise the input unchanged |
| Forms.Clean | zastepstwa_min_project/zastepstwa/forms.py:22-46 | `ClassSessionForm.clean`; stated by Forms.CleanVerdict |
| Forms.CleanEditCollidesWithItself | zastepstwa_min_project/zastepstwa/forms.py:38-45 | Re-saving an existing non-empty session through the form reports the lecturer busy |
| Forms.AppendUnderEach | zastepstwa_min_project/zastepstwa/forms.py:87-89 | The subject's label is appended under exactly the qualifications it requires |
| Forms.BuildQualToSubjects | zastepstwa_min_project/zastepstwa/forms.py:85-89 | Each qualification maps to the labels of the subjects requiring it, in table order |
| Forms.BulletsIsJoin | zastepstwa_min_project/zastepstwa/forms.py:97 | The bulleted list is the separator followed by the separator-joined items |
| Forms.Listed | zastepstwa_min_project/zastepstwa/forms.py:96-97 | A label lists min(6, n) subjects |
| Forms.LabelFromQShape | zastepstwa_min_project/zastepstwa/forms.py:91-100 | No subjects gives the code and the note; otherwise the code, the six smallest in order, then the rest note |
| Forms.LabelFromQ | zastepstwa_min_project/zastepstwa/forms.py:91-100 | `label_from_q`; its shape is stated by Forms.LabelFromQShape |
| Forms.MoreCount | zastepstwa_min_project/zastepstwa/forms.py:98 | The "more" note appears iff there are over six subjects and it gives how many were left out |
| Forms.SubjectLabelPrefixesLecturerLabel | zastepstwa_min_project/zastepstwa/forms.py:63 | The subject form's label (the code) is a proper prefix of the lecturer form's label |

## Left out

- Time zones, naive/aware datetime conversion and the local calendar: instants are minutes from a local Monday, already converted.
- Floating point: hours are exact reals and `round(…, 2)` in the preview, evaluation and ranking is not modelled (loads are kept in minutes).
- HTTP and JSON handling: request parsing, `bad params`/`bad json`/`POST only` answers, CSRF and the response texts; a 404 is the `None`/`SessionNotFound`/`LecturerNotFound` result.
- The first, shadowed definition of `api_substitution_preview` in views.py: it is replaced by the second one at import and never runs.
- `_period_bounds` of views.py: the period of the ranking is a pair of parameters.
- The event list rendering of `api_events` (titles, colours, JSON fields): only its filter is modelled.
- Concurrency and transaction isolation of the check-then-write in the commit.
- CRUD views other than the lecturer edit, templates, URL routing, admin registration and demo data seeding.
- `ClassSession.__str__` and `Substitution.created_at`: date formatting and a clock are outside the model.
- Subject lists in the preview and code lists in the evaluation are sets: their database order is not modelled.
- Row ids are chosen by the caller of the add operations, as the database would allocate them.
- Ranking.SortRanking: states an ordered permutation, not the stability of Python's sort on ties.
- Views.PreviewLoadWithinCommitLoad: holds only when every session ends after it starts; the session form of views.py does not ensure this (see Views.BackwardsSessionCommitBeatsPreview).
- Views.CommitAcceptedPreviewOk: holds only when every session ends after it starts, for the same reason (see Views.BackwardsSessionCommitBeatsPreview).
- Services.WeeklyLoadCoversDistinctLoad: holds only when every session ends after it starts (see Services.BackwardsSessionCanTakeBeatsEvaluate).
- Services.CanTakeAcceptImpliesEvaluateOk: holds only when every session ends after it starts (see Services.BackwardsSessionCanTakeBeatsEvaluate).
- Ranking.AllTeachingAtLeastSubs: the minutes part holds only when every session ends after it starts (see Ranking.BackwardsSessionAllTeachingBelowSubs).
- Views.AssignThenPreviewCounts: also assumes every session ends after it starts, so that re-assigning the current substitute is refused as a collision.
- Store.Store.AddSubject: requires the required qualifications to exist, as the form's choice field only offers existing rows.
- Services.HasTimeConflict: at services.py:29 the lookups `substitutions__substitute` and `substitute` name no field (the relation is `related_name='substitution'` at models.py:56, the field is `substitute_lecturer` at models.py:58), so as written Django raises `FieldError`; the model gives them the meaning of the existing relation, a session whose substitution row names the lecturer, and does not model the error.
- Services.WeeklyCounts: at services.py:34 and 37 the lookups `substitutions__substitute` and `substitute` name no field (the relation is `related_name='substitution'` at models.py:56, the field is `substitute_lecturer` at models.py:58), so as written Django raises `FieldError`; the model gives them the meaning of the existing relation, a session whose substitution row names the lecturer, and does not model the error.
- Services.CanTakeSubstitution: as written it can only return its qualification refusal (services.py:41-42) and raises past it, because it calls `has_time_conflict` and `weekly_counts`; the model follows the existing relation instead, as for those two.
- Services.Evaluate: at services.py:82, 100 and 111 the lookups `substitutions__substitute` and `substitute` name no field (the relation is `related_name='substitution'` at models.py:56, the field is `substitute_lecturer` at models.py:58), so as written Django raises `FieldError`; the model gives them the meaning of the existing relation, a session whose substitution row names the lecturer, and does not model the error. The `except FieldError` fallbacks (services.py:84-88, 114-118) use `substitution__substitute`, which fails the same way.
- Services.EvaluateSubstitution: computes Services.Evaluate, so the `FieldError` of services.py:82-118 is not modelled here either.
