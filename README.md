# repsai fitness app — verified model of its core logic

repsai is a Next.js app. A signed-in user (identified by a Clerk id) generates workouts
with a language model, saves them, and marks the days they trained on a monthly calendar
that also shows a yearly total. This project models the logic underneath, in Dafny:

- **Collections** (`models.dfy`). MongoDB's `users`, `workouts` and `progresses` are
  classes holding a `map` or `seq` field that the server actions update in place.
  - `users` is keyed by the unique Clerk id.
  - `workouts` is keyed by `_id`.
  - `progresses` is a sequence in natural order. `findOne` takes the first match. No
    index makes (user, year, month) unique, so that uniqueness is an invariant the
    upsert is proved to keep.
- **Progress store** (`progress_actions.dfy`):
  - a Clerk id is resolved to the user's `_id`;
  - a month's day list is read, or `[]` when no record exists;
  - it is saved with a whole-list upsert;
  - the yearly total is the sum over months 1..12 of the day-list lengths.
- **Workout store and counters** (`workout_actions.dfy`):
  - create pushes the new id onto the owner's list, and delete pulls it off;
  - listing is sorted by date, and "latest" is the workout with the maximal date;
  - the two progress counters are included, one of them a fold.
- **User store** (`user_actions.dfy`): `fetchUser` and the `updateUser` upsert. The upsert
  lower-cases the username, sets `onboarded`, may fail on the unique username index, and
  revalidates only "/profile/edit".
- **Calendars**:
  - `calendar.dfy` holds the pure logic both calendar components share: the day toggle,
    month navigation with year carry, Gregorian month lengths, the weekday of the 1st,
    and the future-day test.
  - `workouts_calendar.dfy` and `shared_calendar.dfy` are the two components. Each is a
    class whose fields are the React state. Its handlers and effects are methods,
    composed in sequence.
- **Validators** (`workout_validation.dfy`, `workout_edit_validation.dfy`): the two zod
  schemas, as parse functions that return the parsed value or the issues.
- **Generate route** (`generate_workout_route.dfy`): the single-pass removal of "per leg"
  from the generated text, and the catch-all mapping of every failure to one 500 response.
- **Navigation** (`left_sidebar.dfy`, `bottombar.dfy`): the active-link predicate, and the
  bottom bar's first-word label.

`wrappers.dfy`, `seqs.dfy` and `text.dfy` hold the shared datatypes and helpers:
`Option`/`Result`, remove-all-occurrences, substring search, and ASCII lower-casing.

## Where the code and its intent part ways

- **Missing yearly-total action.** `components/workouts/WorkoutCalendar.tsx:5,47` imports
  and calls `getTotalWorkoutDaysForYear`, which `lib/actions/progress.actions.ts` does not
  export.
  - The model gives that calendar the 12-month total (`ProgressActions.YearTotal`), the
    sum the shared calendar computes in its loop.
  - The fold of `getWorkoutDaysInYear` is proved equal to it whenever keys are unique and
    months lie in 1..12.
- **Wrong import path.** `lib/actions/workout.actions.ts:6` imports `../models/progress.model`,
  but the progress schema is `lib/models/progress.ts`. The model uses that schema for both.
- **Counters keyed by the raw id.** `getWorkoutDaysInMonth` and `getWorkoutDaysInYear`
  (`lib/actions/workout.actions.ts:138,149`) put the `userId` they are given straight into
  the progress filter, without resolving a Clerk id as `progress.actions` does.
  - Passed a Clerk id, Mongoose cannot cast it to an ObjectId, and both counters throw;
    neither has a `catch`.
  - No component calls either counter. The model takes the `_id` as given.
- **Unused cache field.** The progress document's `yearlyWorkoutDays` field
  (`lib/models/progress.ts:9`) defaults to 0 and is never written. The upsert is proved to
  leave it untouched, and no total reads it.
- **Toggling twice only restores the days, not the order.** Toggling a day twice restores
  the list exactly only when the day was absent.
  - When it was present once, the same days come back, but that day moves to the end:
    [3, 5] becomes [5, 3] (`Calendar.ToggleTwiceMovesPresentDay`).
  - The display does not depend on order.
- **No ownership check on delete.** `deleteWorkout` pulls the id from the caller's list and
  deletes the body without checking ownership.
  - A caller who does not own the workout leaves a dangling id in the owner's list
    (`WorkoutActions.NonOwnerDeleteLeavesDanglingReference`).
  - When the caller is the owner, referential integrity is kept.
- **Stuck loading flag.** In `components/workouts/WorkoutCalendar.tsx` a failing load
  throws before `setLoading(false)`, so the flag stays set and every day button stays
  disabled (`WorkoutCalendar.CalendarWithProgress.FinishLoad`).

## Model

| member | source | states |
|---|---|---|
| ProgressActions.GetUserObjectId | lib/actions/progress.actions.ts:15-18 | some id exactly when a user has this Clerk id, and then that user's `_id` |
| ProgressActions.FindFirst | lib/actions/progress.actions.ts:29-33 | `findOne`: none iff no record has the key, otherwise the first position holding it |
| ProgressActions.DaysOrEmptyReadsFirstRecord | lib/actions/progress.actions.ts:35 | [] when no record has the key; otherwise the days of the first record holding it |
| ProgressActions.GetWorkoutDays | lib/actions/progress.actions.ts:20-39 | fails iff the Clerk id has no user, with "Failed to fetch workout days: User not found in the database" |
| ProgressActions.GetWorkoutDaysReadsFirstRecord | lib/actions/progress.actions.ts:29-35 | for a known user, the days of the first record of (user `_id`, year, month), or [] when there is none |
| ProgressActions.Upsert | lib/actions/progress.actions.ts:50-54 | keys and cached counters of existing records unchanged; one record added exactly when no record has the key, and it is (key, days, 0) |
| ProgressActions.SaveWorkoutDays | lib/actions/progress.actions.ts:41-58 | fails iff the user is unknown, with the "Failed to save workout days: " message, and then changes nothing; otherwise the collection becomes the upsert of the resolved key; key uniqueness is kept |
| ProgressActions.UpsertThenRead | lib/actions/progress.actions.ts:50-54 | after saving `days` under a key, reading that key gives exactly `days`, in order and with duplicates |
| ProgressActions.UpsertOtherKey | lib/actions/progress.actions.ts:50-54 | saving one key leaves what every other key reads unchanged |
| ProgressActions.UpsertIdempotent | lib/actions/progress.actions.ts:52 | saving the same list twice gives the same collection as saving it once |
| ProgressActions.UpsertKeepsUniqueKeys | lib/actions/progress.actions.ts:50-54 | at most one record per (user, year, month) stays at most one after any save |
| ProgressActions.UpsertKeepsMonthsInRange | lib/actions/progress.actions.ts:50-54 | saving a month in 1..12 keeps every record's month in 1..12 |
| ProgressActions.YearTotal | components/shared/WorkoutCalendar.tsx:27-35 | the yearly total fails iff the user is unknown; otherwise it is the sum over months 1..12 of the day-list lengths |
| ProgressActions.MonthSumAfterUpsert | lib/actions/progress.actions.ts:50-54 | a save of month m changes a range of months containing m by (new length − old length of m) |
| ProgressActions.MonthSumUnchanged | lib/actions/progress.actions.ts:50-54 | a save outside a range of months leaves that range's sum unchanged |
| ProgressActions.YearTotalAfterSave | components/shared/WorkoutCalendar.tsx:29-33 | after a save of month m the yearly total changes by exactly (new length − old length) of month m |
| ProgressActions.SaveThenGet | lib/actions/progress.actions.ts:20-58 | after `saveWorkoutDays` of a month, `getWorkoutDays` of that month returns exactly the saved list |
| ProgressActions.SaveOutcome | components/shared/WorkoutCalendar.tsx:27-49 | after a save and a recount, the month reads back as saved and the total moved by (new length − old length) of that month |
| WorkoutActions.Pushed | lib/actions/workout.actions.ts:38-40 | `$push` onto the owner's list keeps the same set of users, and every user with another `_id` is unchanged |
| WorkoutActions.Pulled | lib/actions/workout.actions.ts:88-91 | `$pull`: the id is gone from the caller's list, every other id keeps its count, and every other user is unchanged |
| WorkoutActions.PassesSchema | lib/models/workout.model.ts:3-25 | a workout passing the `required` validators has a title; with no exercises, the title alone decides |
| WorkoutActions.CreateWorkout | lib/actions/workout.actions.ts:25-48 | a workout passing the schema's `required` fields is stored under the new id (exercises default to []), pushed onto its owner's list, and the path revalidated; otherwise an error starting "Error creating workout: Workout validation failed" and nothing changes; referential integrity is kept |
| WorkoutActions.PushAppendsToOwner | lib/actions/workout.actions.ts:38-40 | the new id is the last element of the owner's list, and the earlier entries are unchanged |
| WorkoutActions.OwnedEntries | lib/actions/workout.actions.ts:58 | exactly the (id, workout) pairs stored for that user |
| WorkoutActions.InsertByDate | lib/actions/workout.actions.ts:58 | the result holds the list plus exactly the new entry, nothing lost or duplicated |
| WorkoutActions.InsertByDateSorted | lib/actions/workout.actions.ts:58 | inserting into a date-sorted list keeps it sorted |
| WorkoutActions.FetchWorkouts | lib/actions/workout.actions.ts:52-62 | each of the user's workouts exactly once, in non-decreasing date order |
| WorkoutActions.FetchLatestWorkout | lib/actions/workout.actions.ts:115-131 | none iff the user has no workout; otherwise one of the user's workouts whose date no other exceeds |
| WorkoutActions.LatestIsLastOfSorted | lib/actions/workout.actions.ts:123-125 | the latest workout's date is the date of the last entry of the sorted listing |
| WorkoutActions.FetchUserWorkouts | lib/actions/workout.actions.ts:65-80 | fails iff the Clerk id is unknown, with "Failed to fetch workouts: User not found"; otherwise the stored list |
| WorkoutActions.FetchWorkoutDetails | lib/actions/workout.actions.ts:103-112 | some workout iff the id is stored, and then that workout |
| WorkoutActions.DeleteWorkout | lib/actions/workout.actions.ts:83-100 | pulls the id from the caller's list, removes the body, and reports success |
| WorkoutActions.DeleteRemoves | lib/actions/workout.actions.ts:88-94 | afterwards the id is not in the caller's list, whose other ids keep their order; its details are none, and every other workout's details are unchanged |
| WorkoutActions.PullKeepsRefIntegrity | lib/actions/workout.actions.ts:88-91 | pulling an id never creates a dangling reference |
| WorkoutActions.PulledShrinks | lib/actions/workout.actions.ts:88-91 | pulling only removes ids from a user's list and leaves the user's `_id` as it was |
| WorkoutActions.OwnerDeleteKeepsRefIntegrity | lib/actions/workout.actions.ts:83-100 | a delete by the owner keeps every listed id pointing at a stored workout of that user |
| WorkoutActions.NonOwnerDeleteLeavesDanglingReference | lib/actions/workout.actions.ts:88-94 | a delete by a non-owner leaves the owner's list referring to a deleted workout |
| WorkoutActions.GetWorkoutDaysInMonth | lib/actions/workout.actions.ts:134-142 | the length of the matching record's days, 0 when there is none |
| WorkoutActions.YearDocs | lib/actions/workout.actions.ts:149 | exactly the records of that user and year |
| WorkoutActions.GetWorkoutDaysInYear | lib/actions/workout.actions.ts:145-154 | 0 when the user has no record for the year |
| WorkoutActions.FoldLengths | lib/actions/workout.actions.ts:152 | the `reduce` never goes below its start value, and returns it for no records |
| WorkoutActions.FoldIsSum | lib/actions/workout.actions.ts:152 | the `reduce` fold equals its start value plus the sum of the lengths |
| WorkoutActions.MonthSumCons | lib/actions/workout.actions.ts:149-152 | a record whose key no other shares adds its length to the month range holding its month |
| WorkoutActions.SumOfYearDocs | lib/actions/workout.actions.ts:149-152 | with unique keys and months 1..12, the lengths of the year's records add up to the 12-month sum |
| WorkoutActions.YearFoldEqualsMonthSum | lib/actions/workout.actions.ts:145-154 | `getWorkoutDaysInYear` equals the sum over months 1..12 of the monthly counts |
| UserActions.FetchUser | lib/actions/user.actions.ts:8-17 | the record with this Clerk id, or none |
| UserActions.Upserted | lib/actions/user.actions.ts:42-52 | fails iff another user already holds the lower-cased username, with a message starting "Failed to create/update user: E11000 duplicate key error" |
| UserActions.UpdateUser | lib/actions/user.actions.ts:30-61 | on success the collection is the upsert and revalidation happens iff the path is "/profile/edit"; on failure nothing changes and nothing is revalidated; `_id` and username uniqueness are kept |
| UserActions.UpsertedProfile | lib/actions/user.actions.ts:42-52 | afterwards exactly one record with the Clerk id exists (created if absent), with the lower-cased username, the given name, bio and image, `onboarded` set, its `_id` and workouts kept; every other user is unchanged |
| UserActions.UpsertedKeepsValid | lib/actions/user.actions.ts:42-52 | a successful upsert keeps `_id` and username unique |
| UserActions.UpsertedIdempotent | lib/actions/user.actions.ts:42-52 | submitting the same profile twice gives the same collection as submitting it once |
| Text.LowerChar | lib/actions/user.actions.ts:45 | the result is never an upper-case letter; letters A-Z map 32 code points down, and everything else is unchanged |
| Text.ToLower | lib/actions/user.actions.ts:45 | same length, each character lower-cased |
| Text.ToLowerIdempotent | lib/actions/user.actions.ts:45 | lower-casing twice is lower-casing once |
| Seqs.RemoveAll | components/workouts/WorkoutCalendar.tsx:72 | `filter(d => d !== day)`: the day is absent and every other value keeps its count |
| Seqs.RemoveAllIdempotent | components/workouts/WorkoutCalendar.tsx:72 | filtering twice removes nothing more |
| Seqs.RemoveAllKeepsNoDuplicates | components/workouts/WorkoutCalendar.tsx:72 | filtering keeps a duplicate-free list duplicate-free |
| Calendar.Toggle | components/workouts/WorkoutCalendar.tsx:69-76 | the day is present iff it was absent; nothing else is affected (the list minus the day is unchanged); an absent day is appended at the end |
| Calendar.ToggleKeepsOtherDays | components/shared/WorkoutCalendar.tsx:53-54 | every other day keeps its number of occurrences |
| Calendar.ToggleTwiceAbsent | components/workouts/WorkoutCalendar.tsx:72 | toggling an absent day twice restores the list exactly |
| Calendar.ToggleTwiceSameDays | components/workouts/WorkoutCalendar.tsx:72 | toggling twice a day that occurs at most once restores the same days with the same counts |
| Calendar.ToggleTwiceMovesPresentDay | components/workouts/WorkoutCalendar.tsx:72 | toggling a present day twice can reorder the list: [3, 5] becomes [5, 3] |
| Calendar.ToggleKeepsNoDuplicates | components/workouts/WorkoutCalendar.tsx:72 | a duplicate-free list stays duplicate-free |
| Calendar.DaysInMonth | components/workouts/WorkoutCalendar.tsx:79-83 | 28 to 31 days; February has 29 iff the year is a Gregorian leap year |
| Calendar.DaysInYear | components/workouts/WorkoutCalendar.tsx:79-83 | the twelve months add up to 366 days in a leap year and 365 otherwise |
| Calendar.YearLength | components/workouts/WorkoutCalendar.tsx:111 | the day count from 0001-01-01 advances by 366 over a leap year and 365 otherwise |
| Calendar.Weekday | components/workouts/WorkoutCalendar.tsx:111 | `getDay()` of a date is in 0..6 |
| Calendar.KnownWeekdays | components/workouts/WorkoutCalendar.tsx:111 | 1970-01-01 is a Thursday, 2025-03-01 a Saturday, 2000-02-29 a Tuesday |
| Calendar.NextMonth | components/workouts/WorkoutCalendar.tsx:88-89 | the next month is one month later, carrying December into January of the next year |
| Calendar.PrevMonth | components/workouts/WorkoutCalendar.tsx:85-86 | the previous month is one month earlier, carrying January into December of the previous year |
| Calendar.NextMonthStartsAfterThisOne | components/workouts/WorkoutCalendar.tsx:79-111 | the next month's 1st is the day after this month's last, so its weekday is shifted by this month's length |
| Calendar.GridDays | components/workouts/WorkoutCalendar.tsx:116-117 | the buttons are exactly the days 1..daysInMonth, each once, increasing |
| Calendar.MonthlyCountBound | components/workouts/WorkoutCalendar.tsx:138 | a duplicate-free list of grid days never counts more than the month's days |
| Calendar.LeadingBlanks | components/workouts/WorkoutCalendar.tsx:111-113 | 0..6 blank cells, the weekday of the 1st |
| Calendar.IsFuture | components/workouts/WorkoutCalendar.tsx:119 | a day in a later year is always in the future, and no day of an earlier year is |
| Calendar.IsFutureIffLaterDay | components/workouts/WorkoutCalendar.tsx:119 | for valid dates, a day is in the future exactly when its day number is greater than today's |
| WorkoutCalendar.CalendarWithProgress.constructor | components/workouts/WorkoutCalendar.tsx:14-26 | starts on the current month with no days, a zero total, and neither flag set |
| WorkoutCalendar.CalendarWithProgress.StoreMonth | components/workouts/WorkoutCalendar.tsx:60 | the month passed to the store is always in 1..12 |
| WorkoutCalendar.CalendarWithProgress.BeginLoad | components/workouts/WorkoutCalendar.tsx:31-32 | a month change sets `loading` and clears the day list |
| WorkoutCalendar.CalendarWithProgress.FinishLoad | components/workouts/WorkoutCalendar.tsx:34-39 | installs the fetched days and clears `loading`; when the fetch fails, both stay as they were |
| WorkoutCalendar.CalendarWithProgress.RefreshYearlyTotal | components/workouts/WorkoutCalendar.tsx:45-49 | the total becomes the displayed year's yearly total |
| WorkoutCalendar.CalendarWithProgress.HandleDayClick | components/workouts/WorkoutCalendar.tsx:69-128 | while loading, or for a day after today, nothing changes; otherwise the day is toggled and `needsSaving` set |
| WorkoutCalendar.CalendarWithProgress.SaveIfNeeded | components/workouts/WorkoutCalendar.tsx:57-66 | when dirty, the whole list is saved under (year, getMonth()+1), the flag cleared and the yearly total refreshed; otherwise nothing changes |
| WorkoutCalendar.CalendarWithProgress.HandlePrevMonth | components/workouts/WorkoutCalendar.tsx:86 | the displayed month moves back exactly one month |
| WorkoutCalendar.CalendarWithProgress.HandleNextMonth | components/workouts/WorkoutCalendar.tsx:89 | the displayed month moves forward exactly one month |
| WorkoutCalendar.CalendarWithProgress.ClickAndSave | components/workouts/WorkoutCalendar.tsx:57-76 | the month and the loading flag stay; a disabled click changes neither the list, the store nor the total; an enabled one toggles the day, upserts the list under the displayed month and nothing else, reads it back, and moves the total by the change of the month's length |
| SharedCalendar.SumWorkoutDaysForYear | components/shared/WorkoutCalendar.tsx:27-35 | the loop's result is the yearly total: the sum over months 1..12 of the fetched lengths, or the fetch error |
| SharedCalendar.CalendarWithProgress.StoreMonth | components/shared/WorkoutCalendar.tsx:44 | the month passed to the store is always in 1..12 |
| SharedCalendar.CalendarWithProgress.constructor | components/shared/WorkoutCalendar.tsx:11-15 | starts on the current month with no days, a zero total, and no unsaved change |
| SharedCalendar.CalendarWithProgress.LoadWorkoutDays | components/shared/WorkoutCalendar.tsx:17-25 | installs the displayed month's stored days |
| SharedCalendar.CalendarWithProgress.CalculateYearlyWorkoutDays | components/shared/WorkoutCalendar.tsx:27-39 | the total becomes the 12-month sum of the displayed year |
| SharedCalendar.CalendarWithProgress.HandleDayClick | components/shared/WorkoutCalendar.tsx:51-58 | any day of the month toggles, with no guard, and `needsSaving` is set |
| SharedCalendar.CalendarWithProgress.SaveIfNeeded | components/shared/WorkoutCalendar.tsx:41-49 | when dirty, the full list is saved for the displayed month, the flag cleared, and the yearly sum recomputed |
| SharedCalendar.CalendarWithProgress.HandlePrevMonth | components/shared/WorkoutCalendar.tsx:64 | one month back |
| SharedCalendar.CalendarWithProgress.HandleNextMonth | components/shared/WorkoutCalendar.tsx:65 | one month forward |
| SharedCalendar.CalendarWithProgress.ClickAndSave | components/shared/WorkoutCalendar.tsx:27-58 | the day toggles, the store becomes the upsert of the list under the displayed month (no other record changes), reads it back, and the yearly total changes by exactly (new length − old length) of the month |
| WorkoutValidation.ParseGender | lib/validations/workout.ts:22 | accepted iff male, female or other, naming back the same text |
| WorkoutValidation.ParseGoal | lib/validations/workout.ts:23 | accepted iff weight_loss, muscle_gain or maintenance, naming back the same text |
| WorkoutValidation.GenderRoundTrip | lib/validations/workout.ts:22 | every gender's name parses back to it |
| WorkoutValidation.GoalRoundTrip | lib/validations/workout.ts:23 | every goal's name parses back to it |
| WorkoutValidation.AcceptsIffEveryField | lib/validations/workout.ts:3-24 | the form is valid iff title and target are non-empty, age is in 15..100, weight in 30..300, height in 100..250, and gender and goal are enum values |
| WorkoutValidation.FieldMessage | lib/validations/workout.ts:4-23 | no message iff the field passes |
| WorkoutValidation.IssuesOfNameFailingFields | lib/validations/workout.ts:3-24 | the issues of a list of fields name exactly those of them that fail |
| WorkoutValidation.IssuesNameFailingFields | lib/validations/workout.ts:3-24 | a field is reported iff its own rule fails |
| WorkoutValidation.Validate | lib/validations/workout.ts:3-24 | parsed values iff every field passes, carrying the input's values; otherwise a non-empty issue list naming exactly the failing fields |
| WorkoutValidation.ValidateRoundTrip | lib/validations/workout.ts:7-23 | accepted input is the rendering of its parsed values, and parsed values within the bounds parse back to themselves |
| WorkoutEditValidation.ExerciseIssues | lib/validations/WorkoutEditValidation.ts:6-10 | no issue iff the name is non-empty, sets ≥ 1 and reps ≥ 1; every issue is at the exercise's index |
| WorkoutEditValidation.ExerciseIssuesExact | lib/validations/WorkoutEditValidation.ts:7-9 | a field of an exercise is reported iff it fails |
| WorkoutEditValidation.ExercisesIssues | lib/validations/WorkoutEditValidation.ts:5-11 | no issue iff every exercise is valid; indices stay within the list |
| WorkoutEditValidation.ExercisesIssuesSound | lib/validations/WorkoutEditValidation.ts:5-11 | every reported field fails for the exercise at its index |
| WorkoutEditValidation.ExercisesIssuesComplete | lib/validations/WorkoutEditValidation.ts:5-11 | every failing field is reported at its exercise's index |
| WorkoutEditValidation.ValidateEdit | lib/validations/WorkoutEditValidation.ts:3-12 | valid iff the title is non-empty and every exercise is valid, and then the form itself, with no exercise dropped or reordered; a title issue is reported iff the title is empty |
| WorkoutEditValidation.TitleIssues | lib/validations/WorkoutEditValidation.ts:4 | a title issue exactly when the title is empty, and only at the title path |
| WorkoutEditValidation.EditReportsFailingField | lib/validations/WorkoutEditValidation.ts:5-11 | a failing exercise field makes the form invalid and is reported at its exercise's index |
| WorkoutEditValidation.EditReportsOnlyFailingFields | lib/validations/WorkoutEditValidation.ts:5-11 | every reported exercise path names an existing exercise whose field fails |
| WorkoutEditValidation.EditIssuesPinpointExercises | lib/validations/WorkoutEditValidation.ts:5-11 | a failing exercise field makes the form invalid and is reported at its index, and only failing fields are reported |
| WorkoutEditValidation.EmptyListAccepted | lib/validations/WorkoutEditValidation.ts:5-11 | with no exercises only the title decides |
| GenerateWorkoutRoute.CleanGeneratedText | app/api/generateWorkout/route.ts:69-72 | the output is never longer than the input |
| GenerateWorkoutRoute.CleanLength | app/api/generateWorkout/route.ts:70 | the output is 7 characters shorter per removed occurrence |
| GenerateWorkoutRoute.RemovedIffContains | app/api/generateWorkout/route.ts:70 | something is removed iff the text contains "per leg" |
| GenerateWorkoutRoute.CleanWithoutMatch | app/api/generateWorkout/route.ts:69-72 | text without "per leg" is returned unchanged |
| GenerateWorkoutRoute.SinglePass | app/api/generateWorkout/route.ts:70 | one pass: "perper leg leg" becomes "per leg", which still contains the phrase |
| GenerateWorkoutRoute.Post | app/api/generateWorkout/route.ts:4-66 | exercises with status 200 iff the body reads, the API key is set, generation succeeds and the cleaned text parses; otherwise `{error: "Failed to generate workout."}` with status 500 |
| LeftSidebar.IsActive | components/shared/LeftSidebar.tsx:32-34 | a link is always active on its own route, and a route of at most one character only there |
| LeftSidebar.IsActiveCases | components/shared/LeftSidebar.tsx:32-34 | a route of length ≤ 1 is active iff the path equals it; a longer one iff the path contains it |
| LeftSidebar.SeveralLinksActive | components/shared/LeftSidebar.tsx:30-34 | links are judged independently, so one path can activate two links |
| Bottombar.BarLinkActive | components/shared/Bottombar.tsx:26-30 | over the app's five links, Home is active iff the path is exactly "/", and every other link iff the path contains its route |
| Bottombar.FirstWord | components/shared/Bottombar.tsx:45 | the label shown is a prefix of the full label, has no whitespace, and stops at whitespace or the end |
| Bottombar.FirstWordUnique | components/shared/Bottombar.tsx:45 | those three properties determine the shown label |
| Bottombar.FirstWordOfLetters | components/shared/Bottombar.tsx:45 | a word of letters followed by whitespace or the end of the label is exactly what the bar shows |
| Bottombar.ShownLabels | components/shared/Bottombar.tsx:45 | "New Workout" shows "New", "Saved Workouts" shows "Saved", "Progress" shows itself |

## Left out

- Database connection (`lib/mongoose.ts`), logging, Next.js caching and React scheduling are
  not modelled. `revalidatePath` is recorded only as whether it is called, or with which
  path.
- Asynchrony is not modelled: the steps run in sequence.
  - In both calendars `saveWorkoutDays` is not awaited before the yearly refresh, and the
    model completes the save first.
  - `connectToDB()` is not awaited in several actions.
  - Concurrent requests are not modelled.
- The Gemini client, the prompt text and `JSON.parse` are outcomes passed to
  `GenerateWorkoutRoute.Post`: the generated text, and a parse function.
- Clerk authentication, the route middleware and the UI-only components are not modelled.
- The clock and time zone: "now" is a parameter, and a day is in the future when its
  date is after today's date.
- Casting a malformed id string to an ObjectId is not modelled. Ids are abstract strings.
  The cast throws in `fetchWorkouts` and `fetchLatestWorkout`, and a Clerk id passed to
  `getWorkoutDaysInMonth` or `getWorkoutDaysInYear` makes the progress query throw; the
  model's counters take an `_id` and count.
- The failure paths of each action's `catch` are modelled only where a cause is visible
  in the code: an unknown user, a schema violation, a duplicate username. A database
  failure is not modelled.
- `deleteWorkout`'s catch-all failure is not modelled; the model always succeeds.
- `createWorkout` stores the workout even when no user has the given `_id`; the push
  then updates nothing.
- WorkoutActions.CreateWorkout: a schema failure is promised only to start with
  "Error creating workout: Workout validation failed". Mongoose goes on with the failing
  paths (": title: Path `title` is required."), and the model's message stops before them.
- UserActions.Upserted: a duplicate username is promised only to start with
  "Failed to create/update user: E11000 duplicate key error". MongoDB goes on with the
  collection, the index and the duplicate key, and the model's message stops before them.
- WorkoutValidation.FormInput: `Number(value)` parsing of the numeric fields is not
  modelled; the model takes the converted number, or `None` for NaN.
- WorkoutValidation.Issues: zod may add a second issue for a field (the range check after
  a failed "must be a number" check); the model reports the first. The enum message text
  is abbreviated to "Invalid enum value".
- WorkoutEditValidation.ValidateEdit: zod's rejection of NaN for `sets` and `reps`, and its
  stripping of unknown keys, are not modelled.
- Text.ToLower: ASCII lower-casing only; JavaScript's Unicode case mapping is not modelled.
- Text.IsWhitespace: only ASCII whitespace; the other Unicode characters that `\s` matches
  are not modelled.
- The user document's `workoutDays` field and the timestamps are not modelled, because no
  modelled action reads or writes them.
- Workout `date` is an integer timestamp, defaulting to the creation time passed in.
- The optional `weight` and `duration` exercise fields of `WorkoutParams` are not part of
  the schema, and are not modelled.
- The `monthlyWorkoutDays` state of the progress calendar holds the yearly total, and is
  named `yearlyWorkoutDays` in the model.
