/**
 * The application rules of `MyApp`. The ad operations of homework08 and
 * homework10 are the same code over the same repository operations and
 * read only the user map, so one definition serves both; the user
 * operations differ and are given for each. Every check runs in the order
 * of the source: user exists, ad exists, caller is the author, validation,
 * write. "Today" (`ads.CurrentDate()`) is a parameter.
 */
module App {
  import opened Wrappers
  import opened Ads
  import AR = AdRepo
  import UR = UserRepo
  import UR8 = UserRepo08
  import Validator

  /**
   * A context as an operation sees it: the number of repository calls it
   * outlives. Each repository call checks the context again, and a done
   * context stays done, so call `k` of an operation (counting from 0)
   * finds it done exactly when `k >= live`.
   */
  predicate DoneAt(live: nat, k: nat) { k >= live }

  /** A context that outlives every operation here: none makes more than three repository calls. */
  const Outlives: nat := 3

  /** `newAd` is `prev` with only its publication flag and update date changed. */
  predicate StatusChanged(prev: Ad, newAd: Ad, published: bool, today: Date) {
    newAd.id == prev.id && newAd.title == prev.title && newAd.text == prev.text &&
    newAd.authorID == prev.authorID && newAd.creationDate == prev.creationDate &&
    newAd.published == published && newAd.updateDate == today
  }

  /** `newAd` is `prev` with only its title, text and update date changed. */
  predicate ContentChanged(prev: Ad, newAd: Ad, title: string, text: string, today: Date) {
    newAd.id == prev.id && newAd.authorID == prev.authorID && newAd.published == prev.published &&
    newAd.creationDate == prev.creationDate &&
    newAd.title == title && newAd.text == text && newAd.updateDate == today
  }

  /**
   * `CreateAd`: the author must exist, then the ad must be valid; the ad
   * is stored unpublished, by `userID`, dated today, under the next ID.
   */
  function CreateAd(ads: AR.Repo, users: map<int, User>, live: nat, today: Date,
                    title: string, text: string, userID: int): (out: (AR.Repo, Result<Ad, Err>))
    ensures live == 0 ==> out == (ads, Failure(UserRepositoryError))
    ensures live >= 1 && userID !in users ==> out == (ads, Failure(UserNotExist))
    ensures live >= 1 && userID in users && !AdValid(title, text) ==> out == (ads, Failure(ValidationError))
    ensures live == 1 && userID in users && AdValid(title, text) ==> out == (ads, Failure(AdRepositoryError))
    ensures out.1.Success? <==> live >= 2 && userID in users && AdValid(title, text)
    ensures out.1.Success? ==>
              out.1.value == Ad(ads.freeID, title, text, userID, false, today, today) &&
              out.0 == AR.Repo(ads.data[ads.freeID := out.1.value], ads.freeID + 1)
    ensures AR.Inv(ads) ==> AR.Inv(out.0)
  {
    var user := UR.GetUserByID(users, DoneAt(live, 0), userID);
    if user.Failure? then (ads, Failure(user.error))
    else
      var draft := Ad(0, title, text, userID, false, today, today);
      AdValidity(draft);
      if Validator.Validate(AdValue(draft)).Some? then (ads, Failure(ValidationError))
      else AR.AddAd(ads, DoneAt(live, 1), draft)
  }

  /**
   * `ChangeAdStatus`: user, ad and authorship are checked in that order;
   * then only the publication flag and the update date change.
   */
  function ChangeAdStatus(ads: AR.Repo, users: map<int, User>, live: nat, today: Date,
                          adID: int, userID: int, published: bool): (out: (AR.Repo, Result<Ad, Err>))
    ensures live == 0 ==> out == (ads, Failure(UserRepositoryError))
    ensures live >= 1 && userID !in users ==> out == (ads, Failure(UserNotExist))
    ensures live == 1 && userID in users ==> out == (ads, Failure(AdRepositoryError))
    ensures live >= 2 && userID in users && adID !in ads.data ==> out == (ads, Failure(AdNotExist))
    ensures live >= 2 && userID in users && adID in ads.data && ads.data[adID].authorID != userID ==>
              out == (ads, Failure(WrongUserError))
    ensures live == 2 && userID in users && adID in ads.data && ads.data[adID].authorID == userID ==>
              out == (ads, Failure(AdRepositoryError))
    ensures out.1.Success? <==>
              live >= 3 && userID in users && adID in ads.data && ads.data[adID].authorID == userID
    ensures out.1.Success? ==>
              StatusChanged(ads.data[adID].(id := adID), out.1.value, published, today) &&
              out.0 == ads.(data := ads.data[adID := out.1.value])
    ensures AR.Inv(ads) ==> AR.Inv(out.0)
  {
    var user := UR.GetUserByID(users, DoneAt(live, 0), userID);
    if user.Failure? then (ads, Failure(user.error))
    else
      var got := AR.GetAdByID(ads, DoneAt(live, 1), adID);
      if got.Failure? then (ads, Failure(got.error))
      else if got.value.authorID != userID then (ads, Failure(WrongUserError))
      else AR.UpdateAdFields(ads, DoneAt(live, 2), adID, got.value.(published := published, updateDate := today))
  }

  /**
   * `UpdateAd`: user, ad and authorship are checked before validation,
   * which looks at the new title and text with the stored ad's other
   * fields; then only the title, the text and the update date change.
   */
  function UpdateAd(ads: AR.Repo, users: map<int, User>, live: nat, today: Date,
                    adID: int, userID: int, title: string, text: string): (out: (AR.Repo, Result<Ad, Err>))
    ensures live == 0 ==> out == (ads, Failure(UserRepositoryError))
    ensures live >= 1 && userID !in users ==> out == (ads, Failure(UserNotExist))
    ensures live == 1 && userID in users ==> out == (ads, Failure(AdRepositoryError))
    ensures live >= 2 && userID in users && adID !in ads.data ==> out == (ads, Failure(AdNotExist))
    ensures live >= 2 && userID in users && adID in ads.data && ads.data[adID].authorID != userID ==>
              out == (ads, Failure(WrongUserError))
    ensures (live >= 2 && userID in users && adID in ads.data && ads.data[adID].authorID == userID &&
             !AdValid(title, text)) ==> out == (ads, Failure(ValidationError))
    ensures (live == 2 && userID in users && adID in ads.data && ads.data[adID].authorID == userID &&
             AdValid(title, text)) ==> out == (ads, Failure(AdRepositoryError))
    ensures out.1.Success? <==>
              live >= 3 && userID in users && adID in ads.data && ads.data[adID].authorID == userID &&
              AdValid(title, text)
    ensures out.1.Success? ==>
              ContentChanged(ads.data[adID].(id := adID), out.1.value, title, text, today) &&
              out.0 == ads.(data := ads.data[adID := out.1.value])
    ensures AR.Inv(ads) ==> AR.Inv(out.0)
  {
    var user := UR.GetUserByID(users, DoneAt(live, 0), userID);
    if user.Failure? then (ads, Failure(user.error))
    else
      var got := AR.GetAdByID(ads, DoneAt(live, 1), adID);
      if got.Failure? then (ads, Failure(got.error))
      else if got.value.authorID != userID then (ads, Failure(WrongUserError))
      else
        var candidate := got.value.(title := title, text := text);
        AdValidity(candidate);
        if Validator.Validate(AdValue(candidate)).Some? then (ads, Failure(ValidationError))
        else AR.UpdateAdFields(ads, DoneAt(live, 2), adID, candidate.(updateDate := today))
  }

  /**
   * `DeleteAd` of homework10: a user error, then an ad error, then
   * `WrongUserError` unless the stored user's ID is the ad's author.
   */
  function DeleteAd(ads: AR.Repo, users: map<int, User>, live: nat,
                    userID: int, adID: int): (out: (AR.Repo, Option<Err>))
    ensures live == 0 ==> out == (ads, Some(UserRepositoryError))
    ensures live >= 1 && userID !in users ==> out == (ads, Some(UserNotExist))
    ensures live == 1 && userID in users ==> out == (ads, Some(AdRepositoryError))
    ensures live >= 2 && userID in users && adID !in ads.data ==> out == (ads, Some(AdNotExist))
    ensures live >= 2 && userID in users && adID in ads.data && users[userID].id != ads.data[adID].authorID ==>
              out == (ads, Some(WrongUserError))
    ensures live == 2 && userID in users && adID in ads.data && users[userID].id == ads.data[adID].authorID ==>
              out == (ads, Some(AdRepositoryError))
    ensures out.1.None? <==>
              live >= 3 && userID in users && adID in ads.data && users[userID].id == ads.data[adID].authorID
    ensures out.1.None? ==> out.0 == AR.Repo(ads.data - {adID}, ads.freeID)
    ensures AR.Inv(ads) ==> AR.Inv(out.0)
  {
    var user := UR.GetUserByID(users, DoneAt(live, 0), userID);
    if user.Failure? then (ads, Some(user.error))
    else
      var got := AR.GetAdByID(ads, DoneAt(live, 1), adID);
      if got.Failure? then (ads, Some(got.error))
      else if user.value.id != got.value.authorID then (ads, Some(WrongUserError))
      else AR.DeleteAd(ads, DoneAt(live, 2), adID)
  }

  /** With users stored under their own IDs, only the ad's author may delete it. */
  lemma OnlyAuthorDeletes(ads: AR.Repo, users: map<int, User>, userID: int, adID: int)
    requires UR.Keyed(users) && userID in users && adID in ads.data
    ensures DeleteAd(ads, users, Outlives, userID, adID).1.None? <==> ads.data[adID].authorID == userID
  {
  }

  /** An ad that cannot be stored is never stored: a failed operation leaves the ads alone. */
  lemma {:induction false} FailuresWriteNothing(ads: AR.Repo, users: map<int, User>, live: nat, today: Date,
                             adID: int, userID: int, title: string, text: string, published: bool)
    ensures CreateAd(ads, users, live, today, title, text, userID).1.Failure? ==>
              CreateAd(ads, users, live, today, title, text, userID).0 == ads
    ensures ChangeAdStatus(ads, users, live, today, adID, userID, published).1.Failure? ==>
              ChangeAdStatus(ads, users, live, today, adID, userID, published).0 == ads
    ensures UpdateAd(ads, users, live, today, adID, userID, title, text).1.Failure? ==>
              UpdateAd(ads, users, live, today, adID, userID, title, text).0 == ads
    ensures DeleteAd(ads, users, live, userID, adID).1.Some? ==>
              DeleteAd(ads, users, live, userID, adID).0 == ads
  {
  }

  /** A created ad reads back from the repository as returned. */
  lemma {:induction false} CreateThenGet(ads: AR.Repo, users: map<int, User>, today: Date, title: string, text: string, userID: int)
    requires userID in users && AdValid(title, text)
    ensures var (ads', res) := CreateAd(ads, users, Outlives, today, title, text, userID);
      AR.GetAdByID(ads', false, res.value.id) == res && !res.value.published && res.value.authorID == userID
  {
  }

  // ---------------------------------------------------------------------
  // The user operations of homework10 (over homework09's user repository)
  // ---------------------------------------------------------------------

  /** `CreateUser` of homework10: submits ID 0, so the repository's next ID is used. */
  function CreateUser(users: UR.Repo, cancelled: bool, nickname: string, email: string): (out: (UR.Repo, Result<User, Err>))
    ensures cancelled ==> out == (users, Failure(UserRepositoryError))
    ensures !cancelled ==>
              out.1 == Success(User(users.freeID, nickname, email)) &&
              out.0 == UR.Repo(users.data[users.freeID := out.1.value], users.freeID + 1)
    ensures UR.Inv(users) ==> UR.Inv(out.0)
  {
    UR.AddUser(users, cancelled, User(0, nickname, email))
  }

  /** `UpdateUser` of homework10: the stored user keeps its ID and takes the new nickname and email. */
  function UpdateUser(users: UR.Repo, cancelled: bool, userID: int, nickname: string, email: string): (out: (UR.Repo, Result<User, Err>))
    ensures cancelled ==> out == (users, Failure(UserRepositoryError))
    ensures !cancelled && userID !in users.data ==> out == (users, Failure(UserNotExist))
    ensures !cancelled && userID in users.data ==>
              out.1 == Success(User(userID, nickname, email)) &&
              out.0 == users.(data := users.data[userID := out.1.value])
    ensures UR.Inv(users) ==> UR.Inv(out.0)
  {
    var (data', res) := UR.UpdateUserFields(users.data, cancelled, userID, User(0, nickname, email));
    (users.(data := data'), res)
  }

  // ---------------------------------------------------------------------
  // The user operations of homework08 (caller-chosen IDs)
  // ---------------------------------------------------------------------

  /** `CreateUser` of homework08: the user is stored under the caller's ID, unless it is taken. */
  function CreateUser08(users: map<int, User>, cancelled: bool, id: int, nickname: string, email: string): (out: (map<int, User>, Result<User, Err>))
    ensures cancelled ==> out == (users, Failure(UserRepositoryError))
    ensures !cancelled && id in users ==> out == (users, Failure(UserAlreadyExists))
    ensures !cancelled && id !in users ==>
              out == (users[id := User(id, nickname, email)], Success(User(id, nickname, email)))
    ensures UR.Keyed(users) ==> UR.Keyed(out.0)
  {
    var res := UR8.AddUser08(users, cancelled, User(id, nickname, email));
    if res.1.Failure? then (res.0, Failure(res.1.error)) else res
  }

  /** `UpdateUser` of homework08: reads the user, changes nickname and email, writes it back. */
  function UpdateUser08(users: map<int, User>, live: nat, userID: int, nickname: string, email: string): (out: (map<int, User>, Result<User, Err>))
    ensures live == 0 ==> out == (users, Failure(UserRepositoryError))
    ensures live >= 1 && userID !in users ==> out == (users, Failure(UserNotExist))
    ensures live == 1 && userID in users ==> out == (users, Failure(UserRepositoryError))
    ensures live >= 2 && userID in users ==>
              out == (users[userID := User(userID, nickname, email)], Success(User(userID, nickname, email)))
  {
    var got := UR.GetUserByID(users, DoneAt(live, 0), userID);
    if got.Failure? then (users, Failure(got.error))
    else UR.UpdateUserFields(users, DoneAt(live, 1), userID, got.value.(nickname := nickname, email := email))
  }

  /**
   * The two homeworks' `UpdateUser` differ in code but not in effect, except
   * when the context ends between homework08's read and its write.
   */
  lemma UpdateUserAgree(users: UR.Repo, live: nat, userID: int, nickname: string, email: string)
    ensures live != 1 ==>
      var (users', res) := UpdateUser(users, DoneAt(live, 0), userID, nickname, email);
      UpdateUser08(users.data, live, userID, nickname, email) == (users'.data, res)
    ensures live == 1 && userID in users.data ==>
      UpdateUser(users, false, userID, nickname, email).1.Success? &&
      UpdateUser08(users.data, live, userID, nickname, email).1 == Failure(UserRepositoryError)
  {
  }
}

/**
 * The application rules of homework06 over the slice-backed store: there
 * is no user repository, validation comes first in `CreateAd`, and the
 * other two operations write through the slot the repository hands out.
 */
module App06 {
  import opened Wrappers
  import opened Ads
  import Repo06 = AdRepo06
  import Validator

  /** `CreateAd`: validation, then storage; an invalid ad is refused even on a done context. */
  function CreateAd(data: seq<Ad06>, cancelled: bool, title: string, text: string, userID: int): (out: (seq<Ad06>, Result<Ad06, Err>))
    ensures !AdValid(title, text) ==> out == (data, Failure(ValidationError))
    ensures AdValid(title, text) && cancelled ==> out == (data, Failure(ContextErr))
    ensures out.1.Success? <==> AdValid(title, text) && !cancelled
    ensures out.1.Success? ==>
              out.1.value == Ad06(|data|, title, text, userID, false) && out.0 == data + [out.1.value]
    ensures Repo06.Inv(data) ==> Repo06.Inv(out.0)
  {
    var draft := Ad06(0, title, text, userID, false);
    Ad06Validity(draft);
    if Validator.Validate(Ad06Value(draft)).Some? then (data, Failure(ValidationError))
    else Repo06.AddAd(data, cancelled, draft)
  }

  /**
   * `ChangeAdStatus`: the author alone may change the flag, which is
   * written into the stored ad itself; the result is that stored ad.
   */
  function ChangeAdStatus(data: seq<Ad06>, cancelled: bool, adID: int, userID: int, published: bool): (out: (seq<Ad06>, Result<Ad06, Err>))
    requires cancelled || adID >= 0
    ensures cancelled ==> out == (data, Failure(ContextErr))
    ensures !cancelled && adID >= |data| ==> out == (data, Failure(AdNotExist))
    ensures !cancelled && adID < |data| && data[adID].authorID != userID ==> out == (data, Failure(WrongUserError))
    ensures out.1.Success? <==> !cancelled && adID < |data| && data[adID].authorID == userID
    ensures out.1.Success? ==>
              |out.0| == |data| && out.0[adID] == out.1.value &&
              (forall i :: 0 <= i < |data| && i != adID ==> out.0[i] == data[i]) &&
              out.1.value.published == published && out.1.value.id == data[adID].id &&
              out.1.value.title == data[adID].title && out.1.value.text == data[adID].text &&
              out.1.value.authorID == userID
    ensures Repo06.Inv(data) ==> Repo06.Inv(out.0)
  {
    var slot := Repo06.GetAdByID(data, cancelled, adID);
    if slot.Failure? then (data, Failure(slot.error))
    else if data[slot.value].authorID != userID then (data, Failure(WrongUserError))
    else
      var data' := data[slot.value := data[slot.value].(published := published)];
      (data', Success(data'[slot.value]))
  }

  /**
   * `UpdateAd`: lookup, then authorship, then validity of the new title
   * and text; only then are they written into the stored ad.
   */
  function UpdateAd(data: seq<Ad06>, cancelled: bool, adID: int, userID: int, title: string, text: string): (out: (seq<Ad06>, Result<Ad06, Err>))
    requires cancelled || adID >= 0
    ensures cancelled ==> out == (data, Failure(ContextErr))
    ensures !cancelled && adID >= |data| ==> out == (data, Failure(AdNotExist))
    ensures !cancelled && adID < |data| && data[adID].authorID != userID ==> out == (data, Failure(WrongUserError))
    ensures !cancelled && adID < |data| && data[adID].authorID == userID && !AdValid(title, text) ==>
              out == (data, Failure(ValidationError))
    ensures out.1.Success? <==> !cancelled && adID < |data| && data[adID].authorID == userID && AdValid(title, text)
    ensures out.1.Success? ==>
              |out.0| == |data| && out.0[adID] == out.1.value &&
              (forall i :: 0 <= i < |data| && i != adID ==> out.0[i] == data[i]) &&
              out.1.value.title == title && out.1.value.text == text && out.1.value.id == data[adID].id &&
              out.1.value.published == data[adID].published && out.1.value.authorID == userID
    ensures Repo06.Inv(data) ==> Repo06.Inv(out.0)
  {
    var slot := Repo06.GetAdByID(data, cancelled, adID);
    if slot.Failure? then (data, Failure(slot.error))
    else
      var ad := data[slot.value];
      if ad.authorID != userID then (data, Failure(WrongUserError))
      else
        var candidate := Ad06(ad.id, title, text, ad.authorID, ad.published);
        Ad06Validity(candidate);
        if Validator.Validate(Ad06Value(candidate)).Some? then (data, Failure(ValidationError))
        else
          var data' := data[slot.value := ad.(title := title, text := text)];
          (data', Success(data'[slot.value]))
  }

  /** A created ad is found under its ID and carries the creator as author, unpublished. */
  lemma {:induction false} CreateThenGet(data: seq<Ad06>, title: string, text: string, userID: int)
    requires AdValid(title, text)
    ensures var (data', res) := CreateAd(data, false, title, text, userID);
      Repo06.GetAdByID(data', false, res.value.id) == Success(res.value.id) &&
      data'[res.value.id] == res.value && !res.value.published && res.value.authorID == userID
  {
  }
}
