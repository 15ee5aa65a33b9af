/** Server actions over the workouts collection and the users' `workouts` lists,
    and the two progress counters (lib/actions/workout.actions.ts). */
module WorkoutActions {
  import opened Wrappers
  import opened Models
  import opened Seqs
  import opened Text
  import ProgressActions

  const CreateFailed := "Error creating workout: "
  const ValidationFailed := "Workout validation failed"
  const FetchFailed := "Failed to fetch workouts: "
  const UserNotFound := "User not found"

  /** One entry of a query result: a document with its `_id`. */
  type Entry = (ObjectId, Workout)

  /** Mongoose's `required` validators of the workout schema, run by `Workout.create`. */
  predicate PassesSchema(w: Workout)
    ensures PassesSchema(w) ==> w.title != []
    ensures w.exercises == [] ==> (PassesSchema(w) <==> w.title != [])
  {
    w.title != [] && forall e :: e in w.exercises ==> e.name != []
  }

  /** Every id in a user's `workouts` list names a stored workout owned by that user. */
  ghost predicate RefIntegrity(users: map<ClerkId, User>, workouts: map<ObjectId, Workout>)
  {
    forall c, id :: c in users && id in users[c].workouts ==> id in workouts && workouts[id].user == users[c].oid
  }

  /** `User.findByIdAndUpdate(owner, {$push: {workouts: id}})`. */
  function Pushed(users: map<ClerkId, User>, owner: ObjectId, id: ObjectId): (r: map<ClerkId, User>)
    ensures r.Keys == users.Keys
    ensures forall c :: c in users && users[c].oid != owner ==> r[c] == users[c]
  {
    map c | c in users :: if users[c].oid == owner then users[c].(workouts := users[c].workouts + [id]) else users[c]
  }

  /** `User.updateOne({id: clerkId}, {$pull: {workouts: id}})`. */
  function Pulled(users: map<ClerkId, User>, clerkId: ClerkId, id: ObjectId): (r: map<ClerkId, User>)
    ensures r.Keys == users.Keys
    ensures clerkId in users ==> id !in r[clerkId].workouts
    ensures clerkId in users ==> multiset(r[clerkId].workouts) == multiset(users[clerkId].workouts)[id := 0]
    ensures forall c :: c in users && c != clerkId ==> r[c] == users[c]
  {
    if clerkId in users then users[clerkId := users[clerkId].(workouts := RemoveAll(users[clerkId].workouts, id))]
    else users
  }

  /** `createWorkout`: stores a new workout (exercises default to []), then appends its
      id to the owner's list. A document the schema rejects is not created. */
  method CreateWorkout(
    users: UserCollection, workouts: WorkoutCollection,
    title: string, description: Option<string>, user: ObjectId, exercises: Option<seq<Exercise>>,
    newId: ObjectId, now: int)
    returns (r: Result<Entry>, revalidated: seq<string>)
    requires users.Valid()
    requires newId !in workouts.docs
    modifies users, workouts
    ensures users.Valid()
    ensures var w := Workout(title, description, None, user, if exercises.Some? then exercises.value else [], now);
      if PassesSchema(w) then
        && r == Ok((newId, w))
        && workouts.docs == old(workouts.docs)[newId := w]
        && users.docs == Pushed(old(users.docs), user, newId)
        && revalidated == ["/workouts/" + user]
      else
        && r.Err? && IsPrefix(CreateFailed + ValidationFailed, r.message)
        && workouts.docs == old(workouts.docs)
        && users.docs == old(users.docs)
        && revalidated == []
    ensures RefIntegrity(old(users.docs), old(workouts.docs)) ==> RefIntegrity(users.docs, workouts.docs)
  {
    var w := Workout(title, description, None, user, if exercises.Some? then exercises.value else [], now);
    if !PassesSchema(w) {
      var message := CreateFailed + ValidationFailed;
      assert message[..|message|] == message;
      return Err(message), [];
    }
    workouts.docs := workouts.docs[newId := w];
    ghost var before := users.docs;
    if c :| c in users.docs && users.docs[c].oid == user {
      users.docs := users.docs[c := users.docs[c].(workouts := users.docs[c].workouts + [newId])];
      assert users.docs == Pushed(before, user, newId);
    } else {
      assert users.docs == Pushed(before, user, newId);
    }
    r, revalidated := Ok((newId, w)), ["/workouts/" + user];
  }

  /** After a successful create, the new id ends the owner's list and the earlier ids stay as they were. */
  lemma PushAppendsToOwner(users: map<ClerkId, User>, owner: ObjectId, id: ObjectId, c: ClerkId)
    requires c in users && users[c].oid == owner
    ensures var list := Pushed(users, owner, id)[c].workouts;
      && |list| == |users[c].workouts| + 1
      && list[|list| - 1] == id
      && list[..|list| - 1] == users[c].workouts
  {
  }

  /** All of a user's workouts, as entries. */
  function OwnedEntries(workouts: map<ObjectId, Workout>, user: ObjectId): (r: set<Entry>)
    ensures forall e :: e in r <==> e.0 in workouts && workouts[e.0] == e.1 && e.1.user == user
  {
    set id | id in workouts && workouts[id].user == user :: (id, workouts[id])
  }

  predicate SortedByDate(s: seq<Entry>)
  {
    forall i, j :: 0 <= i < j < |s| ==> s[i].1.date <= s[j].1.date
  }

  /** Inserts an entry after every entry with an earlier or equal date. */
  function InsertByDate(s: seq<Entry>, e: Entry): (r: seq<Entry>)
    ensures multiset(r) == multiset(s) + multiset{e}
  {
    if s == [] then [e]
    else if e.1.date < s[0].1.date then [e] + s
    else
      assert s == [s[0]] + s[1..];
      [s[0]] + InsertByDate(s[1..], e)
  }

  /** Insertion keeps a date-sorted list sorted. */
  lemma {:induction false} InsertByDateSorted(s: seq<Entry>, e: Entry)
    requires SortedByDate(s)
    ensures SortedByDate(InsertByDate(s, e))
  {
    if s != [] && e.1.date >= s[0].1.date {
      var rest := InsertByDate(s[1..], e);
      InsertByDateSorted(s[1..], e);
      var r := [s[0]] + rest;
      forall j | 0 <= j < |rest|
        ensures s[0].1.date <= rest[j].1.date
      {
        assert rest[j] in multiset(s[1..]) + multiset{e};
        if rest[j] != e {
          var k :| 0 <= k < |s[1..]| && s[1..][k] == rest[j];
          assert s[k + 1] == rest[j];
        }
      }
      forall i, j | 0 <= i < j < |r|
        ensures r[i].1.date <= r[j].1.date
      {
        if i == 0 {
          assert r[j] == rest[j - 1];
        } else {
          assert r[i] == rest[i - 1] && r[j] == rest[j - 1];
        }
      }
    }
  }

  /** `fetchWorkouts`: `Workout.find({user}).sort({date: 1})`. The result holds each of
      the user's workouts exactly once, in non-decreasing date order. */
  method FetchWorkouts(workouts: map<ObjectId, Workout>, user: ObjectId) returns (r: seq<Entry>)
    ensures SortedByDate(r)
    ensures multiset(r) == multiset(OwnedEntries(workouts, user))
  {
    var pending := OwnedEntries(workouts, user);
    r := [];
    while pending != {}
      invariant SortedByDate(r)
      invariant multiset(r) + multiset(pending) == multiset(OwnedEntries(workouts, user))
      decreases pending
    {
      var e :| e in pending;
      InsertByDateSorted(r, e);
      r := InsertByDate(r, e);
      assert multiset(pending) == multiset(pending - {e}) + multiset{e};
      pending := pending - {e};
    }
  }

  /** `fetchLatestWorkout`: `findOne({user}).sort({date: -1})`, a workout of the user with
      the largest date, or none when the user has no workout. */
  method FetchLatestWorkout(workouts: map<ObjectId, Workout>, user: ObjectId) returns (r: Option<Entry>)
    ensures r.None? <==> OwnedEntries(workouts, user) == {}
    ensures r.Some? ==> r.value in OwnedEntries(workouts, user)
    ensures r.Some? ==> forall e :: e in OwnedEntries(workouts, user) ==> e.1.date <= r.value.1.date
  {
    var pending := OwnedEntries(workouts, user);
    r := None;
    while pending != {}
      invariant pending <= OwnedEntries(workouts, user)
      invariant r.None? ==> pending == OwnedEntries(workouts, user)
      invariant r.Some? ==> r.value in OwnedEntries(workouts, user)
      invariant r.Some? ==> forall e :: e in OwnedEntries(workouts, user) - pending ==> e.1.date <= r.value.1.date
      decreases pending
    {
      var e :| e in pending;
      if r.None? || r.value.1.date < e.1.date {
        r := Some(e);
      }
      pending := pending - {e};
    }
  }

  /** The last entry of the sorted list has the latest date. */
  lemma LatestIsLastOfSorted(sorted: seq<Entry>, latest: Entry, workouts: map<ObjectId, Workout>, user: ObjectId)
    requires SortedByDate(sorted)
    requires multiset(sorted) == multiset(OwnedEntries(workouts, user))
    requires latest in OwnedEntries(workouts, user)
    requires forall e :: e in OwnedEntries(workouts, user) ==> e.1.date <= latest.1.date
    ensures sorted != [] && sorted[|sorted| - 1].1.date == latest.1.date
  {
    assert latest in multiset(sorted);
    var k :| 0 <= k < |sorted| && sorted[k] == latest;
    var last := sorted[|sorted| - 1];
    assert last in multiset(sorted);
  }

  /** `fetchUserWorkouts`: the stored list of the user with this Clerk id. */
  function FetchUserWorkouts(users: map<ClerkId, User>, clerkId: ClerkId): (r: Result<seq<ObjectId>>)
    ensures r.Err? <==> clerkId !in users
    ensures r.Err? ==> r.message == FetchFailed + UserNotFound
    ensures r.Ok? ==> r.value == users[clerkId].workouts
  {
    if clerkId in users then Ok(users[clerkId].workouts) else Err(FetchFailed + UserNotFound)
  }

  /** `fetchWorkoutDetails`: `Workout.findById(id)`. */
  function FetchWorkoutDetails(workouts: map<ObjectId, Workout>, id: ObjectId): (r: Option<Workout>)
    ensures r.Some? <==> id in workouts
    ensures r.Some? ==> r.value == workouts[id]
  {
    if id in workouts then Some(workouts[id]) else None
  }

  /** `deleteWorkout`: first pulls the id from the caller's list, then deletes the body. */
  method DeleteWorkout(users: UserCollection, workouts: WorkoutCollection, clerkId: ClerkId, id: ObjectId)
    returns (r: Result<bool>)
    requires users.Valid()
    modifies users, workouts
    ensures users.Valid()
    ensures r == Ok(true)
    ensures users.docs == Pulled(old(users.docs), clerkId, id)
    ensures workouts.docs == old(workouts.docs) - {id}
  {
    users.docs := Pulled(users.docs, clerkId, id);
    workouts.docs := workouts.docs - {id};
    r := Ok(true);
  }

  /** After a delete the id is gone from the caller's list and its details are not found;
      every other id of that list keeps its order. */
  lemma DeleteRemoves(users: map<ClerkId, User>, workouts: map<ObjectId, Workout>, clerkId: ClerkId, id: ObjectId)
    requires clerkId in users
    ensures FetchUserWorkouts(Pulled(users, clerkId, id), clerkId) == Ok(RemoveAll(users[clerkId].workouts, id))
    ensures id !in FetchUserWorkouts(Pulled(users, clerkId, id), clerkId).value
    ensures FetchWorkoutDetails(workouts - {id}, id) == None
    ensures forall other :: other != id ==> FetchWorkoutDetails(workouts - {id}, other) == FetchWorkoutDetails(workouts, other)
  {
  }

  /** A pull only shrinks lists and keeps every `_id`. */
  lemma PulledShrinks(users: map<ClerkId, User>, clerkId: ClerkId, id: ObjectId, c: ClerkId, x: ObjectId)
    requires c in users && x in Pulled(users, clerkId, id)[c].workouts
    ensures x in users[c].workouts && Pulled(users, clerkId, id)[c].oid == users[c].oid
  {
    if c == clerkId {
      var list := users[c].workouts;
      assert Pulled(users, clerkId, id)[c].workouts == RemoveAll(list, id);
      assert multiset(RemoveAll(list, id))[x] > 0;
      assert multiset(list)[x] > 0;
    }
  }

  /** Pulling the reference first never leaves a dangling reference, whoever asks. */
  lemma PullKeepsRefIntegrity(users: map<ClerkId, User>, workouts: map<ObjectId, Workout>, clerkId: ClerkId, id: ObjectId)
    requires RefIntegrity(users, workouts)
    ensures RefIntegrity(Pulled(users, clerkId, id), workouts)
  {
    var p := Pulled(users, clerkId, id);
    forall c, x | c in p && x in p[c].workouts
      ensures x in workouts && workouts[x].user == p[c].oid
    {
      PulledShrinks(users, clerkId, id, c, x);
    }
  }

  /** When the caller owns the workout, the delete as a whole keeps referential integrity. */
  lemma OwnerDeleteKeepsRefIntegrity(users: map<ClerkId, User>, workouts: map<ObjectId, Workout>, clerkId: ClerkId, id: ObjectId)
    requires UsersValid(users) && RefIntegrity(users, workouts)
    requires clerkId in users
    requires id in workouts ==> workouts[id].user == users[clerkId].oid
    ensures RefIntegrity(Pulled(users, clerkId, id), workouts - {id})
  {
    PullKeepsRefIntegrity(users, workouts, clerkId, id);
    var p := Pulled(users, clerkId, id);
    forall c, x | c in p && x in p[c].workouts
      ensures x in workouts - {id}
    {
      if c != clerkId {
        assert x in users[c].workouts;
        assert workouts[x].user == users[c].oid;
        assert users[c].oid != users[clerkId].oid;
      }
    }
  }

  /** `deleteWorkout` does not check ownership: a caller who does not own the workout
      deletes its body and leaves the owner's list pointing at it. */
  lemma NonOwnerDeleteLeavesDanglingReference()
    ensures var users := map["alice" := User("oidA", "alice", "Alice", "", "", [], true),
                             "bob" := User("oidB", "bob", "Bob", "", "", ["w1"], true)];
            var workouts := map["w1" := Workout("Legs", None, None, "oidB", [], 0)];
            && UsersValid(users) && RefIntegrity(users, workouts)
            && !RefIntegrity(Pulled(users, "alice", "w1"), workouts - {"w1"})
  {
    var users := map["alice" := User("oidA", "alice", "Alice", "", "", [], true),
                     "bob" := User("oidB", "bob", "Bob", "", "", ["w1"], true)];
    var workouts := map["w1" := Workout("Legs", None, None, "oidB", [], 0)];
    assert UsersValid(users) by {
      assert users.Keys == {"alice", "bob"};
    }
    assert RefIntegrity(users, workouts) by {
      assert users.Keys == {"alice", "bob"};
      assert users["alice"].workouts == [];
    }
    var p := Pulled(users, "alice", "w1");
    assert p["bob"] == users["bob"];
    assert "w1" in p["bob"].workouts && "w1" !in workouts - {"w1"};
  }

  /** `getWorkoutDaysInMonth`: the length of the stored list, 0 without a document.
      The user is matched against the stored reference as given, without resolving a Clerk id. */
  function GetWorkoutDaysInMonth(docs: seq<Progress>, userId: ObjectId, year: int, month: int): (r: nat)
    ensures r == |ProgressActions.DaysOrEmpty(docs, ProgressKey(userId, year, month))|
    ensures (forall i :: 0 <= i < |docs| ==> docs[i].key != ProgressKey(userId, year, month)) ==> r == 0
  {
    match ProgressActions.FindFirst(docs, ProgressKey(userId, year, month))
    case None => 0
    case Some(i) => |docs[i].days|
  }

  /** `Progress.find({user, year})`, in collection order. */
  function YearDocs(docs: seq<Progress>, userId: ObjectId, year: int): (r: seq<Progress>)
    ensures forall p :: p in r <==> p in docs && p.key.user == userId && p.key.year == year
  {
    if docs == [] then []
    else
      assert docs == [docs[0]] + docs[1..];
      (if docs[0].key.user == userId && docs[0].key.year == year then [docs[0]] else []) + YearDocs(docs[1..], userId, year)
  }

  /** `reduce((acc, month) => acc + month.days.length, acc)`. */
  function FoldLengths(records: seq<Progress>, acc: int): int
    ensures FoldLengths(records, acc) >= acc
    ensures records == [] ==> FoldLengths(records, acc) == acc
  {
    if records == [] then acc else FoldLengths(records[1..], acc + |records[0].days|)
  }

  /** `getWorkoutDaysInYear`: the fold over the year's documents, starting at 0. */
  function GetWorkoutDaysInYear(docs: seq<Progress>, userId: ObjectId, year: int): (r: int)
    ensures (forall p :: p in docs ==> p.key.user != userId || p.key.year != year) ==> r == 0
  {
    FoldLengths(YearDocs(docs, userId, year), 0)
  }

  function SumLengths(records: seq<Progress>): nat
  {
    if records == [] then 0 else |records[0].days| + SumLengths(records[1..])
  }

  lemma {:induction false} FoldIsSum(records: seq<Progress>, acc: int)
    ensures FoldLengths(records, acc) == acc + SumLengths(records)
  {
    if records != [] {
      FoldIsSum(records[1..], acc + |records[0].days|);
    }
  }

  lemma {:induction false} MonthSumEmpty(user: ObjectId, year: int, lo: int, hi: int)
    ensures ProgressActions.MonthSum([], user, year, lo, hi) == 0
    decreases hi - lo
  {
    if lo < hi {
      MonthSumEmpty(user, year, lo, hi - 1);
    }
  }

  /** Adding a document whose key is not among the others adds its length to the
      month range that holds its month. */
  lemma {:induction false} MonthSumCons(d: Progress, rest: seq<Progress>, user: ObjectId, year: int, lo: int, hi: int)
    requires forall i :: 0 <= i < |rest| ==> rest[i].key != d.key
    ensures ProgressActions.MonthSum([d] + rest, user, year, lo, hi)
         == ProgressActions.MonthSum(rest, user, year, lo, hi)
            + (if d.key.user == user && d.key.year == year && lo <= d.key.month < hi then |d.days| else 0)
    decreases hi - lo
  {
    if lo < hi {
      MonthSumCons(d, rest, user, year, lo, hi - 1);
      var key := ProgressKey(user, year, hi - 1);
      var docs := [d] + rest;
      assert docs[1..] == rest;
      if d.key == key {
        assert ProgressActions.DaysOrEmpty(docs, key) == d.days;
        assert ProgressActions.DaysOrEmpty(rest, key) == [];
      } else {
        assert ProgressActions.FindFirst(docs, key) == (match ProgressActions.FindFirst(rest, key) case None => None case Some(i) => Some(i + 1));
        assert ProgressActions.DaysOrEmpty(docs, key) == ProgressActions.DaysOrEmpty(rest, key);
      }
    }
  }

  /** The tail of a well-formed collection is well formed and avoids the head's key. */
  lemma TailOfValidDocs(docs: seq<Progress>)
    requires docs != [] && UniqueKeys(docs) && MonthsInRange(docs)
    ensures UniqueKeys(docs[1..]) && MonthsInRange(docs[1..])
    ensures forall i :: 0 <= i < |docs[1..]| ==> docs[1..][i].key != docs[0].key
  {
    assert forall i :: 0 <= i < |docs[1..]| ==> docs[1..][i] == docs[i + 1];
  }

  lemma {:induction false} SumOfYearDocs(docs: seq<Progress>, userId: ObjectId, year: int)
    requires UniqueKeys(docs) && MonthsInRange(docs)
    ensures SumLengths(YearDocs(docs, userId, year)) == ProgressActions.MonthSum(docs, userId, year, 1, 13)
  {
    if docs == [] {
      MonthSumEmpty(userId, year, 1, 13);
    } else {
      var d, rest := docs[0], docs[1..];
      assert docs == [d] + rest;
      TailOfValidDocs(docs);
      SumOfYearDocs(rest, userId, year);
      MonthSumCons(d, rest, userId, year, 1, 13);
      var tail := YearDocs(rest, userId, year);
      if d.key.user == userId && d.key.year == year {
        assert YearDocs(docs, userId, year) == [d] + tail;
        assert ([d] + tail)[1..] == tail;
        assert 1 <= d.key.month <= 12;
      } else {
        assert YearDocs(docs, userId, year) == tail;
      }
    }
  }

  /** The fold over the year's documents equals the 12-month sum of `getWorkoutDays`
      lengths, provided keys are unique and months lie in 1..12. */
  lemma YearFoldEqualsMonthSum(docs: seq<Progress>, userId: ObjectId, year: int)
    requires UniqueKeys(docs) && MonthsInRange(docs)
    ensures GetWorkoutDaysInYear(docs, userId, year) == ProgressActions.MonthSum(docs, userId, year, 1, 13)
  {
    FoldIsSum(YearDocs(docs, userId, year), 0);
    SumOfYearDocs(docs, userId, year);
  }
}
