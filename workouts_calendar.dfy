/** The progress calendar of components/workouts/WorkoutCalendar.tsx.

    Its React state becomes the fields of a class, and each handler or effect a method.
    Effects run in sequence: after a month change the load effect (`BeginLoad`, then
    `FinishLoad` once the fetch resolves) and the yearly refresh; after a click the save
    effect (`SaveIfNeeded`). `ClickAndSave` is a click followed by the save effect. */
module WorkoutCalendar {
  import opened Wrappers
  import opened Models
  import opened Calendar
  import ProgressActions

  class CalendarWithProgress {
    const userId: ClerkId
    /** The displayed month of `currentDate`: its year and its `getMonth()` (0..11). */
    var year: int
    var month0: int
    var workoutDays: seq<int>
    /** The yearly total (held in a state variable named `monthlyWorkoutDays`). */
    var yearlyWorkoutDays: int
    var needsSaving: bool
    var loading: bool

    ghost predicate Valid()
      reads this
    {
      ValidMonth(month0)
    }

    /** The component's first render, with `currentDate` set to now. */
    constructor (userId: ClerkId, now: Date)
      requires ValidMonth(now.month0)
      ensures Valid()
      ensures this.userId == userId && year == now.year && month0 == now.month0
      ensures workoutDays == [] && yearlyWorkoutDays == 0 && !needsSaving && !loading
    {
      this.userId := userId;
      year, month0 := now.year, now.month0;
      workoutDays, yearlyWorkoutDays := [], 0;
      needsSaving, loading := false, false;
    }

    /** The month number the store is called with, `getMonth() + 1`. */
    function StoreMonth(): (m: int)
      reads this
      requires Valid()
      ensures 1 <= m <= 12
    {
      month0 + 1
    }

    /** Load effect until the fetch resolves: busy, with an empty list. */
    method BeginLoad()
      requires Valid()
      modifies this
      ensures Valid()
      ensures loading && workoutDays == []
      ensures year == old(year) && month0 == old(month0)
      ensures yearlyWorkoutDays == old(yearlyWorkoutDays) && needsSaving == old(needsSaving)
    {
      loading := true;
      workoutDays := [];
    }

    /** Load effect once the fetch resolves: installs the stored days and clears `loading`.
        When `getWorkoutDays` throws, the effect stops there and `loading` stays set. */
    method FinishLoad(users: UserCollection, progress: ProgressCollection)
      requires Valid()
      modifies this
      ensures Valid()
      ensures var got := ProgressActions.GetWorkoutDays(users.docs, progress.docs, userId, old(year), old(month0) + 1);
        if got.Ok? then workoutDays == got.value && !loading
        else workoutDays == old(workoutDays) && loading == old(loading)
      ensures year == old(year) && month0 == old(month0)
      ensures yearlyWorkoutDays == old(yearlyWorkoutDays) && needsSaving == old(needsSaving)
    {
      var got := ProgressActions.GetWorkoutDays(users.docs, progress.docs, userId, year, StoreMonth());
      if got.Ok? {
        workoutDays := got.value;
        loading := false;
      }
    }

    /** `fetchYearlyWorkoutDays`: sets the yearly total of the displayed year. */
    method RefreshYearlyTotal(users: UserCollection, progress: ProgressCollection)
      requires Valid()
      modifies this
      ensures Valid()
      ensures var total := ProgressActions.YearTotal(users.docs, progress.docs, userId, old(year));
        yearlyWorkoutDays == if total.Ok? then total.value else old(yearlyWorkoutDays)
      ensures year == old(year) && month0 == old(month0) && workoutDays == old(workoutDays)
      ensures needsSaving == old(needsSaving) && loading == old(loading)
    {
      var total := ProgressActions.YearTotal(users.docs, progress.docs, userId, year);
      if total.Ok? {
        yearlyWorkoutDays := total.value;
      }
    }

    /** `handleDayClick` on an enabled button; a button is disabled while loading and for
        a day later than today, and a disabled button changes nothing. */
    method HandleDayClick(day: int, now: Date)
      requires Valid()
      requires 1 <= day <= DaysInMonth(year, StoreMonth())
      modifies this
      ensures Valid()
      ensures if old(loading) || IsFuture(old(year), old(month0), day, now) then
          workoutDays == old(workoutDays) && needsSaving == old(needsSaving)
        else
          workoutDays == Toggle(old(workoutDays), day) && needsSaving
      ensures year == old(year) && month0 == old(month0)
      ensures yearlyWorkoutDays == old(yearlyWorkoutDays) && loading == old(loading)
    {
      if !(loading || IsFuture(year, month0, day, now)) {
        workoutDays := Toggle(workoutDays, day);
        needsSaving := true;
      }
    }

    /** Save effect: with unsaved changes, the whole list is saved under the displayed
        month, the flag is cleared and the yearly total is refreshed. */
    method SaveIfNeeded(users: UserCollection, progress: ProgressCollection)
      requires Valid()
      modifies this, progress
      ensures Valid()
      ensures !needsSaving
      ensures year == old(year) && month0 == old(month0) && workoutDays == old(workoutDays)
      ensures loading == old(loading)
      ensures old(needsSaving) && userId in users.docs ==>
        && progress.docs == ProgressActions.Upsert(old(progress.docs), ProgressKey(users.docs[userId].oid, year, StoreMonth()), workoutDays)
        && yearlyWorkoutDays == ProgressActions.YearTotal(users.docs, progress.docs, userId, year).value
      ensures !(old(needsSaving) && userId in users.docs) ==>
        progress.docs == old(progress.docs) && yearlyWorkoutDays == old(yearlyWorkoutDays)
    {
      if needsSaving {
        var _ := ProgressActions.SaveWorkoutDays(users, progress, userId, year, StoreMonth(), workoutDays);
        needsSaving := false;
        if userId in users.docs {
          yearlyWorkoutDays := ProgressActions.YearTotal(users.docs, progress.docs, userId, year).value;
        }
      }
    }

    /** `handlePrevMonth`: one month back, carrying into the previous year. */
    method HandlePrevMonth()
      requires Valid()
      modifies this
      ensures Valid()
      ensures MonthIndex(year, month0) == MonthIndex(old(year), old(month0)) - 1
      ensures workoutDays == old(workoutDays) && yearlyWorkoutDays == old(yearlyWorkoutDays)
      ensures needsSaving == old(needsSaving) && loading == old(loading)
    {
      year, month0 := PrevMonth(year, month0).0, PrevMonth(year, month0).1;
    }

    /** `handleNextMonth`: one month forward, carrying into the next year. */
    method HandleNextMonth()
      requires Valid()
      modifies this
      ensures Valid()
      ensures MonthIndex(year, month0) == MonthIndex(old(year), old(month0)) + 1
      ensures workoutDays == old(workoutDays) && yearlyWorkoutDays == old(yearlyWorkoutDays)
      ensures needsSaving == old(needsSaving) && loading == old(loading)
    {
      year, month0 := NextMonth(year, month0).0, NextMonth(year, month0).1;
    }

    /** A click followed by the save effect. An enabled click leaves the store holding
        exactly the displayed list for the displayed month and the yearly total moved by
        the change of that month's length; a disabled click changes neither the list nor
        the store. */
    method ClickAndSave(users: UserCollection, progress: ProgressCollection, day: int, now: Date)
      requires Valid() && !needsSaving
      requires 1 <= day <= DaysInMonth(year, StoreMonth())
      requires userId in users.docs
      modifies this, progress
      ensures Valid() && !needsSaving
      ensures year == old(year) && month0 == old(month0) && loading == old(loading)
      ensures old(loading) || IsFuture(year, month0, day, now) ==>
        && workoutDays == old(workoutDays) && progress.docs == old(progress.docs)
        && yearlyWorkoutDays == old(yearlyWorkoutDays)
      ensures !old(loading) && !IsFuture(year, month0, day, now) ==>
        && workoutDays == Toggle(old(workoutDays), day)
        && progress.docs == ProgressActions.Upsert(old(progress.docs), ProgressKey(users.docs[userId].oid, year, StoreMonth()), workoutDays)
        && ProgressActions.GetWorkoutDays(users.docs, progress.docs, userId, year, StoreMonth()) == Ok(workoutDays)
        && yearlyWorkoutDays == ProgressActions.YearTotal(users.docs, old(progress.docs), userId, year).value
             - |ProgressActions.GetWorkoutDays(users.docs, old(progress.docs), userId, year, StoreMonth()).value|
             + |workoutDays|
    {
      ghost var before := progress.docs;
      ghost var enabled := !loading && !IsFuture(year, month0, day, now);
      HandleDayClick(day, now);
      SaveIfNeeded(users, progress);
      if enabled {
        ProgressActions.SaveOutcome(users.docs, before, progress.docs, userId, year, StoreMonth(), workoutDays, yearlyWorkoutDays);
      }
    }
  }
}
