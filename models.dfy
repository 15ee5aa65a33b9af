/** Record shapes of the three MongoDB collections (lib/models) and the collections
    themselves, held as in-memory state that the server actions read and update. */
module Models {
  import opened Wrappers

  /** A MongoDB `_id`; only its identity matters here. */
  type ObjectId = string

  /** The identifier issued by the identity provider (stored in the user's `id` field). */
  type ClerkId = string

  datatype Exercise = Exercise(name: string, sets: real, reps: real)

  /** A workout document; `date` is a timestamp in milliseconds. */
  datatype Workout = Workout(
    title: string,
    description: Option<string>,
    exerciseTarget: Option<string>,
    user: ObjectId,
    exercises: seq<Exercise>,
    date: int)

  /** A user document without its `id` field, which is the key of the collection. */
  datatype User = User(
    oid: ObjectId,
    username: string,
    name: string,
    image: string,
    bio: string,
    workouts: seq<ObjectId>,
    onboarded: bool)

  /** The fields a progress document is looked up by. */
  datatype ProgressKey = ProgressKey(user: ObjectId, year: int, month: int)

  /** A progress document: the marked days of one month, and a cached yearly counter
      that defaults to 0 and that no action writes. */
  datatype Progress = Progress(key: ProgressKey, days: seq<int>, yearlyWorkoutDays: int)

  /** `_id` is unique, and so is `username` (a unique index). The Clerk id is the map key. */
  ghost predicate UsersValid(users: map<ClerkId, User>)
  {
    && (forall c, c' :: c in users && c' in users && c != c' ==> users[c].oid != users[c'].oid)
    && (forall c, c' :: c in users && c' in users && c != c' ==> users[c].username != users[c'].username)
  }

  /** At most one progress document per (user, year, month). */
  ghost predicate UniqueKeys(docs: seq<Progress>)
  {
    forall i, j :: 0 <= i < j < |docs| ==> docs[i].key != docs[j].key
  }

  /** Every progress document belongs to a calendar month 1..12. */
  ghost predicate MonthsInRange(docs: seq<Progress>)
  {
    forall i :: 0 <= i < |docs| ==> 1 <= docs[i].key.month <= 12
  }

  /** The `users` collection, keyed by the unique Clerk id. */
  class UserCollection {
    var docs: map<ClerkId, User>

    ghost predicate Valid()
      reads this
    {
      UsersValid(docs)
    }

    constructor ()
      ensures Valid() && docs == map[]
    {
      docs := map[];
    }
  }

  /** The `workouts` collection, keyed by `_id`. */
  class WorkoutCollection {
    var docs: map<ObjectId, Workout>

    constructor ()
      ensures docs == map[]
    {
      docs := map[];
    }
  }

  /** The `progresses` collection in natural (insertion) order. No index makes
      (user, year, month) unique, so uniqueness is an invariant the upsert keeps. */
  class ProgressCollection {
    var docs: seq<Progress>

    ghost predicate Valid()
      reads this
    {
      UniqueKeys(docs)
    }

    constructor ()
      ensures Valid() && docs == []
    {
      docs := [];
    }
  }
}
