/** Server actions over the progress collection (lib/actions/progress.actions.ts). */
module ProgressActions {
  import opened Wrappers
  import opened Models

  const UserNotFound := "User not found in the database"
  const FetchFailed := "Failed to fetch workout days: "
  const SaveFailed := "Failed to save workout days: "

  /** `getUserObjectId`: the `_id` of the user with this Clerk id, if there is one. */
  function GetUserObjectId(users: map<ClerkId, User>, clerkId: ClerkId): (r: Option<ObjectId>)
    ensures r.Some? <==> clerkId in users
    ensures r.Some? ==> r.value == users[clerkId].oid
  {
    if clerkId in users then Some(users[clerkId].oid) else None
  }

  /** `Progress.findOne(key)`: the position of the first document with this key. */
  function FindFirst(docs: seq<Progress>, key: ProgressKey): (r: Option<nat>)
    ensures r.Some? ==> r.value < |docs| && docs[r.value].key == key
    ensures r.Some? ==> forall j :: 0 <= j < r.value ==> docs[j].key != key
    ensures r.None? ==> forall j :: 0 <= j < |docs| ==> docs[j].key != key
  {
    if docs == [] then None
    else if docs[0].key == key then Some(0)
    else match FindFirst(docs[1..], key)
      case None => None
      case Some(i) => Some(i + 1)
  }

  /** `progress ? progress.days : []` for the document `findOne` returns. */
  function DaysOrEmpty(docs: seq<Progress>, key: ProgressKey): seq<int>
  {
    match FindFirst(docs, key)
    case None => []
    case Some(i) => docs[i].days
  }

  /** `getWorkoutDays`: resolves the Clerk id, then reads that month's days. */
  function GetWorkoutDays(users: map<ClerkId, User>, docs: seq<Progress>, clerkId: ClerkId, year: int, month: int)
    : (r: Result<seq<int>>)
    ensures r.Err? <==> clerkId !in users
    ensures r.Err? ==> r.message == FetchFailed + UserNotFound
  {
    match GetUserObjectId(users, clerkId)
    case None => Err(FetchFailed + UserNotFound)
    case Some(oid) => Ok(DaysOrEmpty(docs, ProgressKey(oid, year, month)))
  }

  /** For a known user, `getWorkoutDays` returns the days of the first record of
      (user `_id`, year, month), and [] when there is no such record. */
  lemma GetWorkoutDaysReadsFirstRecord(users: map<ClerkId, User>, docs: seq<Progress>, clerkId: ClerkId, year: int, month: int)
    requires clerkId in users
    ensures var r := GetWorkoutDays(users, docs, clerkId, year, month);
      var key := ProgressKey(users[clerkId].oid, year, month);
      && r.Ok?
      && (forall i :: 0 <= i < |docs| && docs[i].key == key ==> r.value == docs[FindFirst(docs, key).value].days)
      && ((forall i :: 0 <= i < |docs| ==> docs[i].key != key) ==> r.value == [])
  {
  }

  /** `findOneAndUpdate(key, {$set: {days}}, {upsert: true})`: the first document with
      the key gets the new days; without one, a new document with default fields is added. */
  function Upsert(docs: seq<Progress>, key: ProgressKey, days: seq<int>): (r: seq<Progress>)
    ensures |r| == |docs| || |r| == |docs| + 1
    ensures forall i :: 0 <= i < |docs| ==> r[i].key == docs[i].key && r[i].yearlyWorkoutDays == docs[i].yearlyWorkoutDays
    ensures |r| == |docs| + 1 <==> (forall i :: 0 <= i < |docs| ==> docs[i].key != key)
    ensures |r| == |docs| + 1 ==> r[|docs|] == Progress(key, days, 0)
  {
    match FindFirst(docs, key)
    case Some(i) => docs[i := docs[i].(days := days)]
    case None => docs + [Progress(key, days, 0)]
  }

  /** `saveWorkoutDays`: resolves the Clerk id, then upserts the month's whole day list. */
  method SaveWorkoutDays(users: UserCollection, progress: ProgressCollection, clerkId: ClerkId, year: int, month: int, days: seq<int>)
    returns (r: Result<()>)
    modifies progress
    ensures r.Err? <==> clerkId !in users.docs
    ensures r.Err? ==> r.message == SaveFailed + UserNotFound && progress.docs == old(progress.docs)
    ensures r.Ok? ==> progress.docs == Upsert(old(progress.docs), ProgressKey(users.docs[clerkId].oid, year, month), days)
    ensures old(progress.Valid()) ==> progress.Valid()
  {
    var oid := GetUserObjectId(users.docs, clerkId);
    if oid.None? {
      return Err(SaveFailed + UserNotFound);
    }
    var key := ProgressKey(oid.value, year, month);
    var i := 0;
    while i < |progress.docs| && progress.docs[i].key != key
      invariant 0 <= i <= |progress.docs|
      invariant forall j :: 0 <= j < i ==> progress.docs[j].key != key
    {
      i := i + 1;
    }
    ghost var before := progress.docs;
    if i < |progress.docs| {
      progress.docs := progress.docs[i := progress.docs[i].(days := days)];
    } else {
      progress.docs := progress.docs + [Progress(key, days, 0)];
    }
    assert progress.docs == Upsert(before, key, days);
    if UniqueKeys(before) {
      UpsertKeepsUniqueKeys(before, key, days);
    }
    r := Ok(());
  }

  /** After an upsert, reading the key gives back exactly the saved list. */
  lemma UpsertThenRead(docs: seq<Progress>, key: ProgressKey, days: seq<int>)
    ensures DaysOrEmpty(Upsert(docs, key, days), key) == days
  {
    var r := Upsert(docs, key, days);
    match FindFirst(docs, key)
    case Some(i) =>
      assert FindFirst(r, key) == Some(i) by {
        assert forall j :: 0 <= j < i ==> r[j].key != key;
      }
    case None =>
      assert FindFirst(r, key) == Some(|docs|) by {
        assert forall j :: 0 <= j < |docs| ==> r[j].key != key;
      }
  }

  /** `progress ? progress.days : []`: the days of the first record with the key, and []
      when no record has it. */
  lemma DaysOrEmptyReadsFirstRecord(docs: seq<Progress>, key: ProgressKey)
    ensures (forall i :: 0 <= i < |docs| ==> docs[i].key != key) ==> DaysOrEmpty(docs, key) == []
    ensures forall i :: 0 <= i < |docs| && docs[i].key == key ==>
      exists j :: 0 <= j <= i && docs[j].key == key && DaysOrEmpty(docs, key) == docs[j].days
  {
  }

  /** `getWorkoutDays` for a known user reads the key of that user's `_id`. */
  lemma GetWorkoutDaysOfKnownUser(users: map<ClerkId, User>, docs: seq<Progress>, clerkId: ClerkId, year: int, month: int)
    requires clerkId in users
    ensures GetWorkoutDays(users, docs, clerkId, year, month) == Ok(DaysOrEmpty(docs, ProgressKey(users[clerkId].oid, year, month)))
  {
  }

  /** After `saveWorkoutDays` succeeds, `getWorkoutDays` of the same month returns exactly the saved list. */
  lemma SaveThenGet(users: map<ClerkId, User>, docs: seq<Progress>, clerkId: ClerkId, year: int, month: int, days: seq<int>)
    requires clerkId in users
    ensures GetWorkoutDays(users, Upsert(docs, ProgressKey(users[clerkId].oid, year, month), days), clerkId, year, month) == Ok(days)
  {
    var key := ProgressKey(users[clerkId].oid, year, month);
    UpsertThenRead(docs, key, days);
    GetWorkoutDaysOfKnownUser(users, Upsert(docs, key, days), clerkId, year, month);
  }

  /** What a calendar sees after saving month `month`: the month reads back as saved, and
      the freshly computed yearly total moved by the change of that month's length. */
  lemma SaveOutcome(users: map<ClerkId, User>, before: seq<Progress>, after: seq<Progress>, clerkId: ClerkId,
                    year: int, month: int, days: seq<int>, yearly: int)
    requires clerkId in users
    requires 1 <= month <= 12
    requires after == Upsert(before, ProgressKey(users[clerkId].oid, year, month), days)
    requires yearly == YearTotal(users, after, clerkId, year).value
    ensures GetWorkoutDays(users, after, clerkId, year, month) == Ok(days)
    ensures yearly == YearTotal(users, before, clerkId, year).value - |GetWorkoutDays(users, before, clerkId, year, month).value| + |days|
  {
    SaveThenGet(users, before, clerkId, year, month, days);
    YearTotalAfterSave(users, before, clerkId, year, month, days);
  }

  /** An upsert leaves what every other key reads unchanged. */
  lemma UpsertOtherKey(docs: seq<Progress>, key: ProgressKey, days: seq<int>, other: ProgressKey)
    requires other != key
    ensures DaysOrEmpty(Upsert(docs, key, days), other) == DaysOrEmpty(docs, other)
  {
    var r := Upsert(docs, key, days);
    assert forall j :: 0 <= j < |docs| ==> r[j].key == docs[j].key && (docs[j].key == other ==> r[j] == docs[j]);
    match FindFirst(docs, other)
    case Some(i) =>
      assert FindFirst(r, other) == Some(i);
    case None =>
      assert FindFirst(r, other) == None;
  }

  /** `$set` replaces the array: saving the same list twice is saving it once. */
  lemma UpsertIdempotent(docs: seq<Progress>, key: ProgressKey, days: seq<int>)
    ensures Upsert(Upsert(docs, key, days), key, days) == Upsert(docs, key, days)
  {
    var r := Upsert(docs, key, days);
    match FindFirst(docs, key)
    case Some(i) =>
      assert forall j :: 0 <= j < i ==> r[j].key != key;
      assert FindFirst(r, key) == Some(i);
    case None =>
      assert forall j :: 0 <= j < |docs| ==> r[j].key != key;
      assert FindFirst(r, key) == Some(|docs|);
  }

  /** The upsert matches on the composite key, so it never creates a second document for it. */
  lemma UpsertKeepsUniqueKeys(docs: seq<Progress>, key: ProgressKey, days: seq<int>)
    requires UniqueKeys(docs)
    ensures UniqueKeys(Upsert(docs, key, days))
  {
  }

  lemma UpsertKeepsMonthsInRange(docs: seq<Progress>, key: ProgressKey, days: seq<int>)
    requires MonthsInRange(docs)
    requires 1 <= key.month <= 12
    ensures MonthsInRange(Upsert(docs, key, days))
  {
  }

  /** Sum of the day-list lengths of months lo..hi-1: what `getWorkoutDays` gives for each. */
  function MonthSum(docs: seq<Progress>, user: ObjectId, year: int, lo: int, hi: int): nat
    decreases hi - lo
  {
    if hi <= lo then 0 else MonthSum(docs, user, year, lo, hi - 1) + |DaysOrEmpty(docs, ProgressKey(user, year, hi - 1))|
  }

  /** One more month added to a partial sum. */
  lemma MonthSumStep(docs: seq<Progress>, user: ObjectId, year: int, lo: int, hi: int)
    requires lo <= hi
    ensures MonthSum(docs, user, year, lo, hi + 1) == MonthSum(docs, user, year, lo, hi) + |DaysOrEmpty(docs, ProgressKey(user, year, hi))|
  {
  }

  /** The yearly total: the sum over months 1..12 of the length of `getWorkoutDays`.
      (No action in the progress store exports this; both calendars compute it.) */
  function YearTotal(users: map<ClerkId, User>, docs: seq<Progress>, clerkId: ClerkId, year: int): (r: Result<nat>)
    ensures r.Err? <==> clerkId !in users
    ensures r.Err? ==> r.message == FetchFailed + UserNotFound
  {
    match GetUserObjectId(users, clerkId)
    case None => Err(FetchFailed + UserNotFound)
    case Some(oid) => Ok(MonthSum(docs, oid, year, 1, 13))
  }

  /** For a known user the yearly total is the sum of the twelve month lists. */
  lemma YearTotalOfKnownUser(users: map<ClerkId, User>, docs: seq<Progress>, clerkId: ClerkId, year: int)
    requires clerkId in users
    ensures YearTotal(users, docs, clerkId, year) == Ok(MonthSum(docs, users[clerkId].oid, year, 1, 13))
  {
  }

  /** Saving month m replaces its contribution to the yearly total and nothing else. */
  lemma {:induction false} MonthSumAfterUpsert(docs: seq<Progress>, user: ObjectId, year: int, month: int, days: seq<int>, lo: int, hi: int)
    requires lo <= month < hi
    ensures MonthSum(Upsert(docs, ProgressKey(user, year, month), days), user, year, lo, hi)
         == MonthSum(docs, user, year, lo, hi) - |DaysOrEmpty(docs, ProgressKey(user, year, month))| + |days|
    decreases hi - lo
  {
    var key := ProgressKey(user, year, month);
    var r := Upsert(docs, key, days);
    var last := ProgressKey(user, year, hi - 1);
    if hi - 1 == month {
      UpsertThenRead(docs, key, days);
      MonthSumUnchanged(docs, key, days, user, year, lo, hi - 1);
    } else {
      UpsertOtherKey(docs, key, days, last);
      MonthSumAfterUpsert(docs, user, year, month, days, lo, hi - 1);
    }
  }

  /** Months outside the saved one keep their sum. */
  lemma {:induction false} MonthSumUnchanged(docs: seq<Progress>, key: ProgressKey, days: seq<int>, user: ObjectId, year: int, lo: int, hi: int)
    requires key.user != user || key.year != year || key.month < lo || hi <= key.month
    ensures MonthSum(Upsert(docs, key, days), user, year, lo, hi) == MonthSum(docs, user, year, lo, hi)
    decreases hi - lo
  {
    if lo < hi {
      UpsertOtherKey(docs, key, days, ProgressKey(user, year, hi - 1));
      MonthSumUnchanged(docs, key, days, user, year, lo, hi - 1);
    }
  }

  /** A save of month 1..12 moves the yearly total by the change in that month's length;
      saving the same list again leaves it where it is. */
  lemma YearTotalAfterSave(users: map<ClerkId, User>, docs: seq<Progress>, clerkId: ClerkId, year: int, month: int, days: seq<int>)
    requires clerkId in users
    requires 1 <= month <= 12
    ensures var key := ProgressKey(users[clerkId].oid, year, month);
      YearTotal(users, Upsert(docs, key, days), clerkId, year).value
        == YearTotal(users, docs, clerkId, year).value - |GetWorkoutDays(users, docs, clerkId, year, month).value| + |days|
  {
    MonthSumAfterUpsert(docs, users[clerkId].oid, year, month, days, 1, 13);
  }
}
