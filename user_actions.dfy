/** Server actions over the users collection (lib/actions/user.actions.ts). */
module UserActions {
  import opened Wrappers
  import opened Models
  import opened Text
  import ProgressActions

  const UpdateFailed := "Failed to create/update user: "
  /** What MongoDB reports when the unique `username` index rejects a write. */
  const DuplicateKey := "E11000 duplicate key error"
  const ProfileEditPath := "/profile/edit"

  datatype UpdateParams = UpdateParams(userId: ClerkId, username: string, name: string, bio: string, image: string, path: string)

  /** `fetchUser`: `User.findOne({id})`. */
  function FetchUser(users: map<ClerkId, User>, userId: ClerkId): (r: Option<User>)
    ensures r.Some? <==> userId in users
    ensures r.Some? ==> r.value == users[userId]
  {
    if userId in users then Some(users[userId]) else None
  }

  /** Another user already holds this username. */
  predicate UsernameTaken(users: map<ClerkId, User>, userId: ClerkId, username: string)
  {
    exists c :: c in users && c != userId && users[c].username == username
  }

  /** The collection after `findOneAndUpdate({id}, {...}, {upsert: true})`: the fields are
      set on the existing document, or on a new one with `_id` newOid and no workouts. */
  function Upserted(users: map<ClerkId, User>, p: UpdateParams, newOid: ObjectId): (r: Result<map<ClerkId, User>>)
    ensures r.Err? <==> UsernameTaken(users, p.userId, ToLower(p.username))
    ensures r.Err? ==> IsPrefix(UpdateFailed + DuplicateKey, r.message)
  {
    var username := ToLower(p.username);
    if UsernameTaken(users, p.userId, username) then Err(UpdateFailed + DuplicateKey)
    else
      var oid := if p.userId in users then users[p.userId].oid else newOid;
      var workouts := if p.userId in users then users[p.userId].workouts else [];
      Ok(users[p.userId := User(oid, username, p.name, p.image, p.bio, workouts, true)])
  }

  /** `updateUser`: upserts the profile, then revalidates the path when it is the profile
      edit page. A failure is rethrown with the action's prefix and revalidates nothing. */
  method UpdateUser(users: UserCollection, p: UpdateParams, newOid: ObjectId) returns (r: Result<()>, revalidated: bool)
    requires users.Valid()
    requires forall c :: c in users.docs ==> users.docs[c].oid != newOid
    modifies users
    ensures users.Valid()
    ensures var u := Upserted(old(users.docs), p, newOid);
      && (u.Ok? ==> r == Ok(()) && users.docs == u.value && revalidated == (p.path == ProfileEditPath))
      && (u.Err? ==> r == Err(u.message) && users.docs == old(users.docs) && !revalidated)
  {
    var u := Upserted(users.docs, p, newOid);
    if u.Err? {
      return Err(u.message), false;
    }
    UpsertedKeepsValid(users.docs, p, newOid);
    users.docs := u.value;
    r := Ok(());
    revalidated := false;
    if p.path == ProfileEditPath {
      revalidated := true;
    }
  }

  /** After a successful update the user exists exactly under its Clerk id, with the
      lower-cased username, the given profile fields and the onboarded flag set; its
      `_id` and workout list are kept, and every other user is unchanged. */
  lemma UpsertedProfile(users: map<ClerkId, User>, p: UpdateParams, newOid: ObjectId)
    requires Upserted(users, p, newOid).Ok?
    ensures var r := Upserted(users, p, newOid).value;
      && r.Keys == users.Keys + {p.userId}
      && r[p.userId].username == ToLower(p.username)
      && r[p.userId].name == p.name && r[p.userId].bio == p.bio && r[p.userId].image == p.image
      && r[p.userId].onboarded
      && (p.userId in users ==> r[p.userId].oid == users[p.userId].oid && r[p.userId].workouts == users[p.userId].workouts)
      && (p.userId !in users ==> r[p.userId].oid == newOid && r[p.userId].workouts == [])
      && (forall c :: c in users && c != p.userId ==> r[c] == users[c])
      && ProgressActions.GetUserObjectId(r, p.userId).Some?
      && FetchUser(r, p.userId) == Some(r[p.userId])
  {
  }

  /** A successful upsert keeps `_id` and `username` unique. */
  lemma UpsertedKeepsValid(users: map<ClerkId, User>, p: UpdateParams, newOid: ObjectId)
    requires UsersValid(users)
    requires forall c :: c in users ==> users[c].oid != newOid
    requires Upserted(users, p, newOid).Ok?
    ensures UsersValid(Upserted(users, p, newOid).value)
  {
    var r := Upserted(users, p, newOid).value;
    forall c, c' | c in r && c' in r && c != c'
      ensures r[c].oid != r[c'].oid && r[c].username != r[c'].username
    {
      if c == p.userId {
        assert r[c'] == users[c'];
      } else if c' == p.userId {
        assert r[c] == users[c];
      }
    }
  }

  /** Submitting the same profile twice gives the same collection as submitting it once. */
  lemma UpsertedIdempotent(users: map<ClerkId, User>, p: UpdateParams, newOid: ObjectId, newOid': ObjectId)
    requires Upserted(users, p, newOid).Ok?
    ensures Upserted(Upserted(users, p, newOid).value, p, newOid') == Upserted(users, p, newOid)
  {
    var r := Upserted(users, p, newOid).value;
    assert !UsernameTaken(r, p.userId, ToLower(p.username)) by {
      forall c | c in r && c != p.userId
        ensures r[c].username != ToLower(p.username)
      {
        assert r[c] == users[c];
      }
    }
    var again := r[p.userId := User(r[p.userId].oid, ToLower(p.username), p.name, p.image, p.bio, r[p.userId].workouts, true)];
    assert again[p.userId] == r[p.userId];
    assert again == r;
  }
}
