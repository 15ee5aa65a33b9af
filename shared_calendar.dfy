/** The calendar of components/shared/WorkoutCalendar.tsx: the same month grid and toggle
    as the progress calendar, without a loading flag or a future-date guard, and with the
    yearly total computed by twelve `getWorkoutDays` calls. */
module SharedCalendar {
  import opened Wrappers
  import opened Models
  import opened Calendar
  import ProgressActions

  /** `calculateYearlyWorkoutDays`: the loop over months 1..12 adding up the length of
      each month's list. The first failing fetch ends the loop with its error. */
  method SumWorkoutDaysForYear(users: map<ClerkId, User>, docs: seq<Progress>, userId: ClerkId, year: int)
    returns (r: Result<nat>)
    ensures r == ProgressActions.YearTotal(users, docs, userId, year)
  {
    var total: nat := 0;
    var month := 1;
    while month <= 12
      invariant 1 <= month <= 13
      invariant month > 1 ==> userId in users
      invariant userId in users ==> total == ProgressActions.MonthSum(docs, users[userId].oid, year, 1, month)
    {
      var monthDays := ProgressActions.GetWorkoutDays(users, docs, userId, year, month);
      if monthDays.Err? {
        assert userId !in users;
        return Err(monthDays.message);
      }
      ProgressActions.GetWorkoutDaysOfKnownUser(users, docs, userId, year, month);
      ProgressActions.MonthSumStep(docs, users[userId].oid, year, 1, month);
      total := total + |monthDays.value|;
      month := month + 1;
    }
    assert month == 13;
    ProgressActions.YearTotalOfKnownUser(users, docs, userId, year);
    return Ok(total);
  }

  class CalendarWithProgress {
    const userId: ClerkId
    var year: int
    var month0: int
    var workoutDays: seq<int>
    var yearlyWorkoutDays: int
    var needsSaving: bool

    ghost predicate Valid()
      reads this
    {
      ValidMonth(month0)
    }

    /** The month number the store is called with, `getMonth() + 1`. */
    function StoreMonth(): (m: int)
      reads this
      requires Valid()
      ensures 1 <= m <= 12
    {
      month0 + 1
    }

    constructor (userId: ClerkId, now: Date)
      requires ValidMonth(now.month0)
      ensures Valid()
      ensures this.userId == userId && year == now.year && month0 == now.month0
      ensures workoutDays == [] && yearlyWorkoutDays == 0 && !needsSaving
    {
      this.userId := userId;
      year, month0 := now.year, now.month0;
      workoutDays, yearlyWorkoutDays := [], 0;
      needsSaving := false;
    }

    /** Load effect: installs the stored days of the displayed month; a failing fetch
        leaves the list as it was. */
    method LoadWorkoutDays(users: UserCollection, progress: ProgressCollection)
      requires Valid()
      modifies this
      ensures Valid()
      ensures var got := ProgressActions.GetWorkoutDays(users.docs, progress.docs, userId, old(year), old(month0) + 1);
        workoutDays == if got.Ok? then got.value else old(workoutDays)
      ensures year == old(year) && month0 == old(month0)
      ensures yearlyWorkoutDays == old(yearlyWorkoutDays) && needsSaving == old(needsSaving)
    {
      var got := ProgressActions.GetWorkoutDays(users.docs, progress.docs, userId, year, StoreMonth());
      if got.Ok? {
        workoutDays := got.value;
      }
    }

    /** Yearly effect: sets the total of the displayed year; a failing fetch leaves it. */
    method CalculateYearlyWorkoutDays(users: UserCollection, progress: ProgressCollection)
      requires Valid()
      modifies this
      ensures Valid()
      ensures var total := ProgressActions.YearTotal(users.docs, progress.docs, userId, old(year));
        yearlyWorkoutDays == if total.Ok? then total.value else old(yearlyWorkoutDays)
      ensures year == old(year) && month0 == old(month0) && workoutDays == old(workoutDays)
      ensures needsSaving == old(needsSaving)
    {
      var total := SumWorkoutDaysForYear(users.docs, progress.docs, userId, year);
      if total.Ok? {
        yearlyWorkoutDays := total.value;
      }
    }

    /** `handleDayClick`: every button of the grid toggles its day. */
    method HandleDayClick(day: int)
      requires Valid()
      requires 1 <= day <= DaysInMonth(year, StoreMonth())
      modifies this
      ensures Valid()
      ensures workoutDays == Toggle(old(workoutDays), day) && needsSaving
      ensures year == old(year) && month0 == old(month0) && yearlyWorkoutDays == old(yearlyWorkoutDays)
    {
      workoutDays := Toggle(workoutDays, day);
      needsSaving := true;
    }

    /** Save effect: with unsaved changes, saves the whole list under the displayed month,
        clears the flag and recomputes the yearly total. */
    method SaveIfNeeded(users: UserCollection, progress: ProgressCollection)
      requires Valid()
      modifies this, progress
      ensures Valid()
      ensures !needsSaving
      ensures year == old(year) && month0 == old(month0) && workoutDays == old(workoutDays)
      ensures old(needsSaving) && userId in users.docs ==>
        && progress.docs == ProgressActions.Upsert(old(progress.docs), ProgressKey(users.docs[userId].oid, year, StoreMonth()), workoutDays)
        && yearlyWorkoutDays == ProgressActions.YearTotal(users.docs, progress.docs, userId, year).value
      ensures !(old(needsSaving) && userId in users.docs) ==>
        progress.docs == old(progress.docs) && yearlyWorkoutDays == old(yearlyWorkoutDays)
    {
      if needsSaving {
        var _ := ProgressActions.SaveWorkoutDays(users, progress, userId, year, StoreMonth(), workoutDays);
        needsSaving := false;
        var total := SumWorkoutDaysForYear(users.docs, progress.docs, userId, year);
        if total.Ok? {
          yearlyWorkoutDays := total.value;
        }
      }
    }

    method HandlePrevMonth()
      requires Valid()
      modifies this
      ensures Valid()
      ensures MonthIndex(year, month0) == MonthIndex(old(year), old(month0)) - 1
      ensures workoutDays == old(workoutDays) && yearlyWorkoutDays == old(yearlyWorkoutDays)
      ensures needsSaving == old(needsSaving)
    {
      year, month0 := PrevMonth(year, month0).0, PrevMonth(year, month0).1;
    }

    method HandleNextMonth()
      requires Valid()
      modifies this
      ensures Valid()
      ensures MonthIndex(year, month0) == MonthIndex(old(year), old(month0)) + 1
      ensures workoutDays == old(workoutDays) && yearlyWorkoutDays == old(yearlyWorkoutDays)
      ensures needsSaving == old(needsSaving)
    {
      year, month0 := NextMonth(year, month0).0, NextMonth(year, month0).1;
    }

    /** A click followed by the save effect: the store then holds exactly the displayed
        list for the displayed month, and the yearly total moved by the change of that
        month's length. */
    method ClickAndSave(users: UserCollection, progress: ProgressCollection, day: int)
      requires Valid() && !needsSaving
      requires 1 <= day <= DaysInMonth(year, StoreMonth())
      requires userId in users.docs
      modifies this, progress
      ensures Valid() && !needsSaving
      ensures year == old(year) && month0 == old(month0)
      ensures workoutDays == Toggle(old(workoutDays), day)
      ensures progress.docs == ProgressActions.Upsert(old(progress.docs), ProgressKey(users.docs[userId].oid, year, StoreMonth()), workoutDays)
      ensures ProgressActions.GetWorkoutDays(users.docs, progress.docs, userId, year, StoreMonth()) == Ok(workoutDays)
      ensures yearlyWorkoutDays == ProgressActions.YearTotal(users.docs, old(progress.docs), userId, year).value
        - |ProgressActions.GetWorkoutDays(users.docs, old(progress.docs), userId, year, StoreMonth()).value|
        + |workoutDays|
    {
      ghost var before := progress.docs;
      HandleDayClick(day);
      SaveIfNeeded(users, progress);
      ProgressActions.SaveOutcome(users.docs, before, progress.docs, userId, year, StoreMonth(), workoutDays, yearlyWorkoutDays);
    }
  }
}
