/**
 * The in-memory user repositories. Lookup and update are the same code in
 * homework08 and homework09 and work on the map alone; homework09 hands
 * out IDs from `freeID` and can delete, homework08 stores each user under
 * the ID its caller chose.
 */
module UserRepo {
  import opened Wrappers
  import opened Ads

  /** Every stored user sits under its own ID. */
  predicate Keyed(data: map<int, User>) {
    forall k :: k in data ==> data[k].id == k
  }

  /** `GetUserByID`: the stored user, or `UserNotExist`. */
  function GetUserByID(data: map<int, User>, cancelled: bool, id: int): (res: Result<User, Err>)
    ensures cancelled ==> res == Failure(UserRepositoryError)
    ensures !cancelled ==> (res.Success? <==> id in data)
    ensures !cancelled && id !in data ==> res == Failure(UserNotExist)
    ensures res.Success? ==> res.value == data[id]
    ensures Keyed(data) && res.Success? ==> res.value.id == id
  {
    if cancelled then Failure(UserRepositoryError)
    else if id !in data then Failure(UserNotExist)
    else Success(data[id])
  }

  /**
   * `UpdateUserFields`: the nickname and email of `newUser` replace the
   * stored ones and the ID is kept, whatever ID `newUser` carries.
   */
  function UpdateUserFields(data: map<int, User>, cancelled: bool, id: int, newUser: User): (out: (map<int, User>, Result<User, Err>))
    ensures cancelled ==> out == (data, Failure(UserRepositoryError))
    ensures !cancelled && id !in data ==> out == (data, Failure(UserNotExist))
    ensures !cancelled && id in data ==>
              out.1 == Success(User(id, newUser.nickname, newUser.email)) && out.0 == data[id := out.1.value]
    ensures out.0.Keys == data.Keys
    ensures Keyed(data) ==> Keyed(out.0)
  {
    if cancelled then (data, Failure(UserRepositoryError))
    else if id !in data then (data, Failure(UserNotExist))
    else
      var user := User(id, newUser.nickname, newUser.email);
      (data[id := user], Success(user))
  }

  /** homework09's `UserRepository`: the users by ID and the next ID to hand out. */
  datatype Repo = Repo(data: map<int, User>, freeID: int)

  /** Every stored user sits under its own ID, and that ID was handed out already. */
  predicate Inv(r: Repo) {
    0 <= r.freeID && Keyed(r.data) && forall k :: k in r.data ==> 0 <= k < r.freeID
  }

  /** `New`: no users, and the first ID is 0. */
  function New(): (r: Repo)
    ensures Inv(r) && |r.data| == 0 && r.freeID == 0
  {
    Repo(map[], 0)
  }

  /** `AddUser`: ignores the incoming ID, assigns `freeID` and advances it. */
  function AddUser(r: Repo, cancelled: bool, user: User): (out: (Repo, Result<User, Err>))
    ensures cancelled ==> out == (r, Failure(UserRepositoryError))
    ensures !cancelled ==> out.1 == Success(User(r.freeID, user.nickname, user.email))
    ensures !cancelled ==> out.0 == Repo(r.data[r.freeID := out.1.value], r.freeID + 1)
    ensures Inv(r) && out.1.Success? ==> out.1.value.id !in r.data
    ensures Inv(r) ==> Inv(out.0)
  {
    if cancelled then (r, Failure(UserRepositoryError))
    else
      var stored := user.(id := r.freeID);
      (Repo(r.data[stored.id := stored], r.freeID + 1), Success(stored))
  }

  /** `DeleteUser`: removes the one entry, or reports `UserNotExist`. */
  function DeleteUser(r: Repo, cancelled: bool, id: int): (out: (Repo, Option<Err>))
    ensures cancelled ==> out == (r, Some(UserRepositoryError))
    ensures !cancelled && id !in r.data ==> out == (r, Some(UserNotExist))
    ensures !cancelled && id in r.data ==> out == (Repo(r.data - {id}, r.freeID), None)
    ensures Inv(r) ==> Inv(out.0)
  {
    if cancelled then (r, Some(UserRepositoryError))
    else if id !in r.data then (r, Some(UserNotExist))
    else (r.(data := r.data - {id}), None)
  }

  /** A new user is found under the ID it was given. */
  lemma AddThenGet(r: Repo, user: User, k: int)
    ensures var (r', res) := AddUser(r, false, user);
      GetUserByID(r'.data, false, res.value.id) == res &&
      (k != res.value.id ==> GetUserByID(r'.data, false, k) == GetUserByID(r.data, false, k))
  {
  }

  /** After a delete the ID is gone and a later user never gets it back. */
  lemma DeleteThenAdd(r: Repo, id: int, user: User)
    requires Inv(r) && id in r.data
    ensures var r' := DeleteUser(r, false, id).0;
      GetUserByID(r'.data, false, id) == Failure(UserNotExist) &&
      AddUser(r', false, user).1.value.id != id
  {
  }

  /** The first user of a fresh store gets ID 0. */
  lemma FirstUserIsZero(user: User)
    ensures AddUser(New(), false, user).1 == Success(User(0, user.nickname, user.email))
  {
  }
}

/** homework08's `UserRepository`, which stores users under caller-chosen IDs. */
module UserRepo08 {
  import opened Wrappers
  import opened Ads
  import opened UserRepo

  /** `New`: no users. */
  function New08(): (data: map<int, User>)
    ensures Keyed(data) && |data| == 0
  {
    map[]
  }

  /** `AddUser`: stores the user under its own ID unless that ID is taken. */
  function AddUser08(data: map<int, User>, cancelled: bool, user: User): (out: (map<int, User>, Result<User, Err>))
    ensures cancelled ==> out == (data, Failure(UserRepositoryError))
    ensures !cancelled && user.id in data ==> out == (data, Failure(UserAlreadyExists))
    ensures !cancelled && user.id !in data ==> out == (data[user.id := user], Success(user))
    ensures Keyed(data) ==> Keyed(out.0)
  {
    if cancelled then (data, Failure(UserRepositoryError))
    else if user.id in data then (data, Failure(UserAlreadyExists))
    else (data[user.id := user], Success(user))
  }

  /** A second user under a taken ID is refused and the first one stays. */
  lemma NoOverwrite(data: map<int, User>, first: User, second: User)
    requires first.id == second.id && first.id !in data
    ensures var data' := AddUser08(data, false, first).0;
      AddUser08(data', false, second) == (data', Failure(UserAlreadyExists)) &&
      GetUserByID(data', false, first.id) == Success(first)
  {
  }
}
