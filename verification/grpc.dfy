/**
 * The gRPC adapter of homework09 and homework10: the mapping of domain
 * errors to status codes, the record conversions between domain values
 * and protobuf messages, and the server handlers. A handler calls the
 * `App` it was built with; here the App is a function parameter, so the
 * contracts say which request fields reach it and what becomes of its answer.
 */
module GrpcErrors {
  import opened Wrappers
  import opened Ads

  /** The codes of `google.golang.org/grpc/codes` that the mapping uses. */
  datatype Code = NotFound | PermissionDenied | FailedPrecondition | AlreadyExists | ResourceExhausted | Unknown

  /** A status error: its code and the error whose text it carries. */
  datatype Status = Status(code: Code, err: Err)

  /** The code `ErrorToGRPCError` picks for a non-nil error. */
  function CodeOf(e: Err): (c: Code)
    ensures c == NotFound <==> e == AdNotExist || e == UserNotExist
    ensures c == PermissionDenied <==> e == WrongUserError
    ensures c == FailedPrecondition <==> e == ValidationError
    ensures c == AlreadyExists <==> e == UserAlreadyExists
    ensures c == ResourceExhausted <==> e == AdRepositoryError || e == UserRepositoryError
    ensures c == Unknown <==> e.Other? || e == ContextErr
  {
    match e
    case AdNotExist => NotFound
    case UserNotExist => NotFound
    case WrongUserError => PermissionDenied
    case ValidationError => FailedPrecondition
    case UserAlreadyExists => AlreadyExists
    case AdRepositoryError => ResourceExhausted
    case UserRepositoryError => ResourceExhausted
    case _ => Unknown
  }

  /** `ErrorToGRPCError`: nil stays nil; any other error becomes a status carrying it. */
  function ErrorToGRPCError(e: Option<Err>): (s: Option<Status>)
    ensures e.None? <==> s.None?
    ensures s.Some? ==> s.value.err == e.value && s.value.code == CodeOf(e.value)
  {
    match e
    case None => None
    case Some(err) => Some(Status(CodeOf(err), err))
  }

  /** The errors a caller can cause map to codes other than `Unknown` and `ResourceExhausted`. */
  lemma CallerErrors(e: Err)
    requires e in {AdNotExist, UserNotExist, WrongUserError, ValidationError, UserAlreadyExists}
    ensures CodeOf(e) != Unknown && CodeOf(e) != ResourceExhausted
  {
  }
}

/** The conversions between domain records and protobuf messages. */
module GrpcAd {
  import opened Wrappers
  import opened Ads

  /** `pb.Date`, whose fields are `int64`. */
  datatype PbDate = PbDate(day: int, month: int, year: int)

  /** `pb.AdResponse`; both dates are always set by the conversion. */
  datatype AdResponse = AdResponse(
    id: int,
    title: string,
    text: string,
    authorId: int,
    published: bool,
    creationDate: PbDate,
    updateDate: PbDate)

  /** `pb.UserResponse`. */
  datatype UserResponse = UserResponse(id: int, nickname: string, email: string)

  function DateToPb(d: Date): PbDate {
    PbDate(d.day, d.month, d.year)
  }

  /** The way back, as `adResponseToAd` in the tests reads a response. */
  function AdResponseToAd(r: AdResponse): Ad {
    Ad(r.id, r.title, r.text, r.authorId, r.published,
       Date(r.creationDate.day, r.creationDate.month, r.creationDate.year),
       Date(r.updateDate.day, r.updateDate.month, r.updateDate.year))
  }

  /** `AdToAdResponse` of homework10: every field, both dates whole. */
  function AdToAdResponse(ad: Ad): (r: AdResponse)
    ensures AdResponseToAd(r) == ad
  {
    AdResponse(ad.id, ad.title, ad.text, ad.authorID, ad.published,
               DateToPb(ad.creationDate), DateToPb(ad.updateDate))
  }

  /** The conversion is also onto: every response is the image of the ad it reads back as. */
  lemma ResponseRoundTrip(r: AdResponse)
    ensures AdToAdResponse(AdResponseToAd(r)) == r
  {
  }

  /** `AdsListToListAdsResponse`: each ad converted, in order. */
  function AdsListToListAdsResponse(list: seq<Ad>): (rs: seq<AdResponse>)
    ensures |rs| == |list|
    ensures forall i :: 0 <= i < |list| ==> AdResponseToAd(rs[i]) == list[i]
  {
    if |list| == 0 then []
    else [AdToAdResponse(list[0])] + AdsListToListAdsResponse(list[1..])
  }

  /**
   * `AdToAdResponse` of homework09 as written: the update date's month is
   * filled from its day.
   */
  function AdToAdResponse09(ad: Ad): (r: AdResponse)
    ensures r.updateDate.month == ad.updateDate.day
  {
    AdResponse(ad.id, ad.title, ad.text, ad.authorID, ad.published,
               PbDate(ad.creationDate.day, ad.creationDate.month, ad.creationDate.year),
               PbDate(ad.updateDate.day, ad.updateDate.day, ad.updateDate.year))
  }

  /**
   * What the homework09 conversion keeps: everything but the update month,
   * which reads back as the update day.
   */
  lemma Hw09ReadsBack(ad: Ad)
    ensures AdResponseToAd(AdToAdResponse09(ad)) == ad.(updateDate := ad.updateDate.(month := ad.updateDate.day))
  {
  }

  /** The two conversions agree exactly on ads updated on a day equal to the month number. */
  lemma Hw09AgreesWhen(ad: Ad)
    ensures AdToAdResponse09(ad) == AdToAdResponse(ad) <==> ad.updateDate.day == ad.updateDate.month
  {
    if AdToAdResponse09(ad) == AdToAdResponse(ad) {
      assert AdToAdResponse09(ad).updateDate.month == AdToAdResponse(ad).updateDate.month;
    }
  }

  /** An ad last updated on 9 March 2023 reads back as updated on 9 September. */
  lemma Hw09MonthLost()
    ensures var ad := Ad(0, "t", "x", 0, false, Date(1, 1, 2023), Date(9, 3, 2023));
      AdResponseToAd(AdToAdResponse09(ad)) != ad &&
      AdResponseToAd(AdToAdResponse09(ad)).updateDate == Date(9, 9, 2023)
  {
    var ad := Ad(0, "t", "x", 0, false, Date(1, 1, 2023), Date(9, 3, 2023));
    assert AdResponseToAd(AdToAdResponse09(ad)).updateDate.month == 9;
  }

  function UserResponseToUser(r: UserResponse): User {
    User(r.id, r.nickname, r.email)
  }

  /** `UserToUserResponse`: id, nickname and email, unchanged. */
  function UserToUserResponse(u: User): (r: UserResponse)
    ensures UserResponseToUser(r) == u
  {
    UserResponse(u.id, u.nickname, u.email)
  }

  lemma UserResponseRoundTrip(r: UserResponse)
    ensures UserToUserResponse(UserResponseToUser(r)) == r
  {
  }
}

/**
 * The `Server` handlers. Each one forwards its request's fields to the
 * App and answers (nil, mapped error) on failure and (converted value, nil)
 * on success; the delete handlers always answer a non-nil `Empty`.
 */
module GrpcServer {
  import opened Wrappers
  import opened Ads
  import opened GrpcErrors
  import opened GrpcAd
  import AR = AdRepo
  import App

  /** A handler's two results: the response, nil when absent, and the error. */
  datatype Reply<T> = Reply(resp: Option<T>, err: Option<Status>)

  datatype CreateAdRequest = CreateAdRequest(title: string, text: string, authorId: int)
  datatype ChangeAdStatusRequest = ChangeAdStatusRequest(id: int, authorId: int, published: bool)
  datatype UpdateAdRequest = UpdateAdRequest(id: int, authorId: int, title: string, text: string)
  datatype GetAdByIDRequest = GetAdByIDRequest(id: int)
  datatype FilterRequest = FilterRequest(publishedBy: bool, authorBy: bool, authorId: int, dateBy: bool, date: Option<PbDate>)
  datatype SearchAdsRequest = SearchAdsRequest(pattern: string)
  datatype DeleteAdRequest = DeleteAdRequest(id: int, authorId: int)
  datatype GetUserByIDRequest = GetUserByIDRequest(id: int)
  datatype CreateUserRequest = CreateUserRequest(nickname: string, email: string)
  datatype UpdateUserRequest = UpdateUserRequest(id: int, nickname: string, email: string)
  datatype DeleteUserRequest = DeleteUserRequest(id: int)

  /** The error half of every handler: no response, and the App's error with its code. */
  predicate Refused<T>(r: Reply<T>, e: Err) {
    r == Reply(None, Some(Status(CodeOf(e), e)))
  }

  /** `r` answers `res`: the mapped error, or the ad that reads back as the App's ad. */
  predicate AdAnswer(r: Reply<AdResponse>, res: Result<Ad, Err>) {
    (res.Failure? ==> Refused(r, res.error)) &&
    (res.Success? ==> r.err.None? && r.resp.Some? && AdResponseToAd(r.resp.value) == res.value)
  }

  /** `r` answers `res`: the mapped error, or the list that reads back, in order, as the App's list. */
  predicate ListAnswer(r: Reply<seq<AdResponse>>, res: Result<seq<Ad>, Err>) {
    (res.Failure? ==> Refused(r, res.error)) &&
    (res.Success? ==>
       r.err.None? && r.resp.Some? && |r.resp.value| == |res.value| &&
       forall i :: 0 <= i < |res.value| ==> AdResponseToAd(r.resp.value[i]) == res.value[i])
  }

  /** `r` answers `res`: the mapped error, or the user that reads back as the App's user. */
  predicate UserAnswer(r: Reply<UserResponse>, res: Result<User, Err>) {
    (res.Failure? ==> Refused(r, res.error)) &&
    (res.Success? ==> r.err.None? && r.resp.Some? && UserResponseToUser(r.resp.value) == res.value)
  }

  /** The answer of a delete handler: always a non-nil `Empty`, and the mapped error if any. */
  predicate EmptyAnswer(r: Reply<()>, e: Option<Err>) {
    r.resp == Some(()) &&
    (e.None? ==> r.err.None?) &&
    (e.Some? ==> r.err == Some(Status(CodeOf(e.value), e.value)))
  }

  function AdReply(res: Result<Ad, Err>): (r: Reply<AdResponse>)
    ensures AdAnswer(r, res)
  {
    match res
    case Failure(e) => Reply(None, ErrorToGRPCError(Some(e)))
    case Success(ad) => Reply(Some(AdToAdResponse(ad)), None)
  }

  function ListReply(res: Result<seq<Ad>, Err>): (r: Reply<seq<AdResponse>>)
    ensures ListAnswer(r, res)
  {
    match res
    case Failure(e) => Reply(None, ErrorToGRPCError(Some(e)))
    case Success(list) => Reply(Some(AdsListToListAdsResponse(list)), None)
  }

  function UserReply(res: Result<User, Err>): (r: Reply<UserResponse>)
    ensures UserAnswer(r, res)
  {
    match res
    case Failure(e) => Reply(None, ErrorToGRPCError(Some(e)))
    case Success(u) => Reply(Some(UserToUserResponse(u)), None)
  }

  function CreateAd(app: (string, string, int) -> Result<Ad, Err>, req: CreateAdRequest): (r: Reply<AdResponse>)
    ensures AdAnswer(r, app(req.title, req.text, req.authorId))
  {
    AdReply(app(req.title, req.text, req.authorId))
  }

  function ChangeAdStatus(app: (int, int, bool) -> Result<Ad, Err>, req: ChangeAdStatusRequest): (r: Reply<AdResponse>)
    ensures AdAnswer(r, app(req.id, req.authorId, req.published))
  {
    AdReply(app(req.id, req.authorId, req.published))
  }

  function UpdateAd(app: (int, int, string, string) -> Result<Ad, Err>, req: UpdateAdRequest): (r: Reply<AdResponse>)
    ensures AdAnswer(r, app(req.id, req.authorId, req.title, req.text))
  {
    AdReply(app(req.id, req.authorId, req.title, req.text))
  }

  function GetAdByID(app: int -> Result<Ad, Err>, req: GetAdByIDRequest): (r: Reply<AdResponse>)
    ensures AdAnswer(r, app(req.id))
  {
    AdReply(app(req.id))
  }

  /** The filter a `FilterRequest` stands for: a missing date is the zero date. */
  function RequestFilter(req: FilterRequest): (f: Filter)
    ensures f.publishedBy == req.publishedBy && f.authorBy == req.authorBy
    ensures f.authorID == req.authorId && f.dateBy == req.dateBy
    ensures req.date.None? ==> f.date == ZeroDate
    ensures req.date.Some? ==> DateToPb(f.date) == req.date.value
  {
    var date := if req.date.None? then PbDate(0, 0, 0) else req.date.value;
    Filter(req.publishedBy, req.authorBy, req.authorId, req.dateBy, Date(date.day, date.month, date.year))
  }

  function GetAdsList(app: Filter -> Result<seq<Ad>, Err>, req: FilterRequest): (r: Reply<seq<AdResponse>>)
    ensures ListAnswer(r, app(RequestFilter(req)))
  {
    ListReply(app(RequestFilter(req)))
  }

  function SearchAds(app: string -> Result<seq<Ad>, Err>, req: SearchAdsRequest): (r: Reply<seq<AdResponse>>)
    ensures ListAnswer(r, app(req.pattern))
  {
    ListReply(app(req.pattern))
  }

  /** `DeleteAd` passes `AuthorId` as the user and `Id` as the ad. */
  function DeleteAd(app: (int, int) -> Option<Err>, req: DeleteAdRequest): (r: Reply<()>)
    ensures EmptyAnswer(r, app(req.authorId, req.id))
  {
    Reply(Some(()), ErrorToGRPCError(app(req.authorId, req.id)))
  }

  function GetUserByID(app: int -> Result<User, Err>, req: GetUserByIDRequest): (r: Reply<UserResponse>)
    ensures UserAnswer(r, app(req.id))
  {
    UserReply(app(req.id))
  }

  function CreateUser(app: (string, string) -> Result<User, Err>, req: CreateUserRequest): (r: Reply<UserResponse>)
    ensures UserAnswer(r, app(req.nickname, req.email))
  {
    UserReply(app(req.nickname, req.email))
  }

  function UpdateUser(app: (int, string, string) -> Result<User, Err>, req: UpdateUserRequest): (r: Reply<UserResponse>)
    ensures UserAnswer(r, app(req.id, req.nickname, req.email))
  {
    UserReply(app(req.id, req.nickname, req.email))
  }

  function DeleteUser(app: int -> Option<Err>, req: DeleteUserRequest): (r: Reply<()>)
    ensures EmptyAnswer(r, app(req.id))
  {
    Reply(Some(()), ErrorToGRPCError(app(req.id)))
  }

  /**
   * Served by the homework10 application, a request to create an ad by an
   * unknown user is answered `NotFound`, an invalid one `FailedPrecondition`,
   * and a valid one with the stored ad under the repository's next ID.
   */
  lemma {:induction false} CreateAdServed(ads: AR.Repo, users: map<int, User>, today: Date, req: CreateAdRequest)
    ensures var app := (t: string, x: string, u: int) => App.CreateAd(ads, users, App.Outlives, today, t, x, u).1;
      var r := CreateAd(app, req);
      (req.authorId !in users ==> r.resp.None? && r.err.value.code == NotFound) &&
      (req.authorId in users && !AdValid(req.title, req.text) ==>
         r.resp.None? && r.err.value.code == FailedPrecondition) &&
      (req.authorId in users && AdValid(req.title, req.text) ==>
         r.err.None? && r.resp.value.id == ads.freeID && r.resp.value.authorId == req.authorId &&
         r.resp.value.title == req.title && !r.resp.value.published)
  {
    var app := (t: string, x: string, u: int) => App.CreateAd(ads, users, App.Outlives, today, t, x, u).1;
    var res := app(req.title, req.text, req.authorId);
    if res.Success? {
      assert AdResponseToAd(CreateAd(app, req).resp.value) == res.value;
    }
  }

  /** Served by the homework10 application, a delete by someone other than the author is `PermissionDenied`. */
  lemma DeleteAdServed(ads: AR.Repo, users: map<int, User>, req: DeleteAdRequest)
    requires req.authorId in users && users[req.authorId].id == req.authorId
    requires req.id in ads.data && ads.data[req.id].authorID != req.authorId
    ensures var app := (u: int, a: int) => App.DeleteAd(ads, users, App.Outlives, u, a).1;
      DeleteAd(app, req) == Reply(Some(()), Some(Status(PermissionDenied, WrongUserError)))
  {
  }
}
