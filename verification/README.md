# golang-fintech in Dafny

This project models the core of the `golang-fintech` course repository:

- The tag cloud of homework02.
- The struct-tag validator: the `validate` tag parser, the value checks and `Validate` itself, with the error text it builds.
- The in-memory repositories of the ad service:
  - the map-based ad and user stores of homework08 and homework09;
  - the slice-based ad store of homework06.
- The application layer (`MyApp`) of homework06, homework08 and homework10.
- The gRPC port of homework09 and homework10: error-to-status mapping, ad and user conversions, and the handlers.
- The homework03 copy utility:
  - the option checks of `ParseFlags`;
  - `NewConv`;
  - the streaming whitespace trimmer;
  - the read/convert/write loop of `Copy`.
- `strToID` of homework_extra, with the property its fuzz test checks.

Go's `int64` and `int` are unbounded `int`s. A `context.Context` is modelled by the moment it ends:

- An operation that makes one repository call takes a `cancelled` flag.
- An operation that makes several takes `live`, the number of its repository calls the context outlives. Call k, counting from 0, finds the context done exactly when k >= live (`App.DoneAt`). A context that ends between two calls therefore fails the later call with that repository's error.

homework08's `CreateAd`, `ChangeAdStatus` and `UpdateAd` (homework08/internal/app/my_app.go:17-75) are line for line homework10's, so `App.CreateAd`, `App.ChangeAdStatus` and `App.UpdateAd` model both.

I/O is modelled as parameters:

- The reader, writer, flusher and closer of `Copy` are scripts of results (sequences or single values).
- The case converter of `Copy` is a function parameter.
- Today's date is a parameter.

Go maps iterate in no fixed order, so listed ads are returned as sets.

Module layout, one file per source package (or pair of packages):

| file | modules | source |
|---|---|---|
| `wrappers.dfy` | `Wrappers` | `Option` and `Result` |
| `gostrings.dfy` | `GoStrings` | `strings.Split`, `strings.Join`, `strconv.Atoi`, `strconv.Itoa` |
| `tagcloud.dfy` | `TagCloud` | homework02/tagcloud |
| `validation.dfy` | `Validators`, `TagParse` | validation/check, validation/parse, homework07/parse |
| `validator.dfy` | `Reflection`, `FieldCheck`, `Validator` | homework07/check, validation/validator.go |
| `ads.dfy` | `Ads` | ads, users, dates, filters, errors |
| `adrepo.dfy` | `AdRepo`, `AdRepo06` | adapters/adrepo |
| `userrepo.dfy` | `UserRepo`, `UserRepo08` | adapters/user_repo |
| `app.dfy` | `App`, `App06` | internal/app/my_app.go |
| `grpc.dfy` | `GrpcErrors`, `GrpcAd`, `GrpcServer` | ports/grpc |
| `options.dfy` | `Options` | homework03/pkg/options |
| `conv.dfy` | `Conv` | homework03/pkg/conv |
| `copier.dfy` | `Copier` | homework03/pkg/copier |
| `strtoid.dfy` | `HttpGin` | homework_extra/internal/ports/httpgin |

## Model

| member | source | states |
|---|---|---|
| TagCloud.New | homework02/tagcloud/specification.go:18-24 | The new cloud is valid: sorted descending, index map in agreement, counts positive. Every tag counts 0 and the total is 0. |
| TagCloud.AddTag | homework02/tagcloud/specification.go:26-44 | Validity is preserved. The tag's count goes up by one and no other count changes. The total goes up by one and the tag joins the key set. An unseen tag is appended with count 1. A present tag ends where the bump-and-move reference `Moved` puts it. |
| TagCloud.Increment | homework02/tagcloud/specification.go:33-43 | Incrementing a present tag keeps the cloud valid. It adds exactly one occurrence of that tag and equals `Moved` of its old index. |
| TagCloud.BubbleUp | homework02/tagcloud/specification.go:34-42 | The swap loop leaves the entries exactly as `Moved` says. The index map still points every tag at its own position and has the same keys. |
| TagCloud.SwapLeft | homework02/tagcloud/specification.go:37-41 | One swap moves the promoted entry one place further left. The index map follows it. |
| TagCloud.Landing | homework02/tagcloud/specification.go:36 | The stopping point of the loop condition. Everything between it and the start position has a count not above the new count. The entry before it has a larger count, or it is position 0. |
| TagCloud.LandingUnique | homework02/tagcloud/specification.go:36 | Any position with those two properties is the stopping point, so the loop's stop is determined. |
| TagCloud.BubbleDone | homework02/tagcloud/specification.go:36 | When the loop condition fails, the entries equal the reference `Moved`. |
| TagCloud.MovedOrder | homework02/tagcloud/specification.go:34-42 | Bumping and moving an entry keeps the descending order that the comment on `tagStats` promises, and keeps counts positive. |
| TagCloud.MovedCounts | homework02/tagcloud/specification.go:34-42 | Bumping and moving adds one occurrence of the moved tag, changes no other tag's count, and adds one to the total. |
| TagCloud.PromoteSorted | homework02/tagcloud/specification.go:36-42 | Moving a bumped entry to its stopping point yields a sorted sequence. |
| TagCloud.PromoteCount | homework02/tagcloud/specification.go:37-41 | Swapping entries moves occurrences without creating or losing any. Only the bumped tag gains one. |
| TagCloud.PromoteTotal | homework02/tagcloud/specification.go:37-41 | The total after the bump and the swaps is the old total plus one. |
| TagCloud.AppendValid | homework02/tagcloud/specification.go:30-32 | Appending an unseen tag with count 1, indexed at the old length, keeps the cloud valid. |
| TagCloud.AppendCounts | homework02/tagcloud/specification.go:30-32 | Appending an unseen tag counts it once and changes no other count. |
| TagCloud.SwapAgree | homework02/tagcloud/specification.go:39-40 | Exchanging two neighbours together with their two index entries keeps the index map in agreement. |
| TagCloud.DistinctTags | homework02/tagcloud/specification.go:8-9 | In a valid cloud no tag appears twice. |
| TagCloud.CountOfIndexed | homework02/tagcloud/specification.go:8-9 | In a valid cloud a tag's count is the entry its index points to. An unindexed tag counts 0. |
| TagCloud.TopN | homework02/tagcloud/specification.go:46-57 | Returns min(n, size) entries. They are a prefix of the cloud, sorted, and none is less frequent than any entry left out. |
| TagCloud.AddAll | homework02/tagcloud/specification.go:26-44 | After adding a sequence of tags to a new cloud, the cloud is valid. Each tag's count is its multiplicity in the input, and the total is the input length. |
| Validators.ValidIn | validation/check/validators.go:7-14 | The scan returns true exactly when the value is in the list. |
| Validators.ValidLenNegative | validation/check/validators.go:3-5 | No string has a negative length. |
| Validators.ValidInEmpty | validation/check/validators.go:7-14 | Nothing is in an empty list. |
| Validators.LenIntervalIsMinMax | validation/check/validators.go:24-26 | The interval check is the min check and the max check applied to the length. An interval with a > b admits nothing. |
| TagParse.IntParam | validation/parse/parse.go:26-31 | `len`, `min` and `max` are accepted exactly when the argument is a Go integer, and carry that integer. |
| TagParse.InParam | validation/parse/parse.go:32-37 | `in` is accepted exactly when the first comma-separated item is non-empty, and carries every item. |
| TagParse.LenIntervalParam | validation/parse/parse.go:50-66 | `lenInterval` is accepted exactly when the argument has two comma-separated integers. It carries them in order. |
| TagParse.Dispatch | validation/parse/parse.go:25-69 | Every result is well shaped: each operation carries the argument kind it needs. |
| TagParse.Hw07Dispatch | homework07/parse/parse.go:24-51 | Every result is well shaped and never `lenInterval`. |
| TagParse.ValidationParams | validation/parse/parse.go:20-70 | The result is well shaped, and an accepted tag contains ':'. |
| TagParse.Hw07ValidationParams | homework07/parse/parse.go:19-52 | The same, and it never yields `lenInterval`. |
| TagParse.DispatchNames | validation/parse/parse.go:25-69 | Each known name selects its branch, in both parsers. homework07 rejects `lenInterval`. |
| TagParse.NoColonIsWrong | validation/parse/parse.go:21-24 | A tag without ':' is rejected by both parsers. |
| TagParse.ParamsOfTag | validation/parse/parse.go:21-25 | `name:arg` is dispatched on `name` with argument `arg`. |
| TagParse.LaterSegmentsIgnored | validation/parse/parse.go:21-25 | Anything after a second ':' is ignored. |
| TagParse.IntTagRoundTrip | validation/parse/parse.go:26-49 | `len:n`, `min:n` and `max:n` with `n` printed by `Itoa` parse back to `n`, for every int64 `n`. |
| TagParse.InTag | validation/parse/parse.go:32-37 | An `in:` tag is accepted exactly when its first item is non-empty, and otherwise it is the wrong tag. |
| TagParse.EmptyInIsWrong | validation/parse/parse.go:32-36 | `in:` with nothing after it is rejected. |
| TagParse.LenIntervalRoundTrip | validation/parse/parse.go:50-66 | `lenInterval:a,b` with printed int64 bounds parses back to `(a, b)`. |
| TagParse.LenIntervalNeedsTwo | validation/parse/parse.go:51-54 | A `lenInterval` argument with other than two items is rejected. |
| TagParse.UnknownOpIsWrong | validation/parse/parse.go:67-68 | An operation name outside the five known ones is rejected. |
| TagParse.Hw07Agrees | homework07/parse/parse.go:19-52 | homework07's parser agrees with the later one on every tag except those named `lenInterval`, which it rejects. |
| FieldCheck.AtoiAll | homework07/check/check.go:80-88 | Converting the `in` items succeeds exactly when every item is an integer. The result has the items' values in order. |
| FieldCheck.ValidSlice | homework07/check/check.go:39-46 | A slice passes exactly when every element passes. Otherwise the error is that of the first failing element. |
| FieldCheck.ValidField | homework07/check/check.go:17-36 | A field of any type other than int, string, []int or []string is a type error. A slice passes exactly when each element passes. |
| FieldCheck.StringChecks | homework07/check/check.go:51-74 | For a string: `len`, `min` and `max` compare its byte length, `in` tests membership, and `lenInterval` bounds its length on both sides. A failure is a value error. |
| FieldCheck.IntChecks | homework07/check/check.go:94-103 | For an int, `min` and `max` compare the value. `len` and `lenInterval` never fail. |
| FieldCheck.IntInCheck | homework07/check/check.go:79-92 | An int under `in` passes exactly when every item is an integer and one equals it. A single non-integer item makes it a type error, even when another item matches. |
| FieldCheck.EmptySlicePasses | homework07/check/check.go:39-46 | An empty slice passes under any operation. |
| Validator.FieldErrors | validation/validator.go:48-87 | At most one error per field. The list is empty exactly when no field fails. |
| Validator.Validate | validation/validator.go:37-94 | A non-struct gets the bare not-a-struct error. A struct passes exactly when none of its fields fails. Otherwise it gets a list of between one and field-count errors. |
| Validator.SingleField | validation/validator.go:37-94 | A one-field struct fails with that field's error alone, or passes. |
| Validator.OneFailing | validation/validator.go:48-94 | When only one field fails, the result is a list holding only its error. |
| Validator.UnexportedTagged | validation/validator.go:54-58 | A tagged unexported field yields the unexported-field error whatever its tag. |
| Validator.BadTagSyntax | validation/validator.go:62-66 | A tagged exported field whose tag does not parse yields the syntax error. |
| Validator.UntaggedSkipped | validation/validator.go:76-86 | An untagged field is never checked unless it is an exported struct. |
| Validator.NestedOneError | validation/validator.go:76-86 | An untagged exported struct field contributes its nested error list as one entry, however many of its own fields fail. |
| Validator.MessageOfErrors | validation/validator.go:22-35 | The error text of an empty list is "". For one error it is that error's text. For several it is every text followed by a newline. |
| Validator.SeveralEndWithNewline | validation/validator.go:28-33 | The text of a list of two or more errors ends with a newline. |
| Ads.TagSpelling | homework06/internal/ads/ads.go:5-6 | The two tags are the printed forms of the bounds 1..99 and 1..499. |
| Ads.TagsParse | homework06/internal/ads/ads.go:5-6 | The title and text tags parse to the intervals 1..99 and 1..499. |
| Ads.DatePasses | homework08/internal/model/ads/date.go:5-9 | A nested date carries no tags, so it never fails validation. |
| Ads.IntervalField | validation/validator.go:60-74 | A string field under a `lenInterval` tag fails exactly when its length leaves the interval. |
| Ads.TwoChecked | validation/validator.go:48-93 | A struct whose other fields pass fails exactly when one of the two remaining fields fails. |
| Ads.UntaggedAdFields | homework06/internal/ads/ads.go:3-9 | An ad's untagged fields never fail. |
| Ads.AdFieldsValidity | homework06/internal/ads/ads.go:5-6 | With any tags that parse to the two intervals, an ad passes `Validate` exactly when its title is 1..99 bytes and its text 1..499. |
| Ads.Ad06FieldsValidity | homework06/internal/ads/ads.go:5-6 | The same for the dateless homework06 ad. |
| Ads.AdValidity | homework06/internal/ads/ads.go:3-9 | `Validate` accepts a dated ad exactly when `AdValid` (title 1..99, text 1..499) holds. |
| Ads.Ad06Validity | homework06/internal/ads/ads.go:3-9 | `Validate` accepts a homework06 ad exactly when `AdValid` holds. |
| Ads.EmptyTitleMessage | homework06/internal/ads/ads.go:5 | An empty title with a valid text fails with exactly one value error, whose text is "value of field is not validate". |
| Ads.EmptyTitleFails | homework06/internal/ads/ads.go:5-6 | Under any tags that parse as the real ones, an empty title gives exactly one value error. |
| AdRepo.New | homework09/internal/adapters/adrepo/repo.go:130-135 | An empty store whose first ID is 0. |
| AdRepo.GetAdByID | homework09/internal/adapters/adrepo/repo.go:19-32 | A done context gives the repository error. Otherwise it succeeds exactly when the ID is stored, returns that ad (whose ID is the key), and gives `AdNotExist` when absent. |
| AdRepo.AddAd | homework09/internal/adapters/adrepo/repo.go:34-46 | The ad is stored under `freeID` with that ID, and `freeID` advances. The new ID was not in use. Both store invariants are kept. A done context changes nothing. |
| AdRepo.UpdateAdFields | homework09/internal/adapters/adrepo/repo.go:48-71 | Replaces every field of a stored ad, keeping its ID. An absent ID is `AdNotExist` and changes nothing. The keys and `freeID` never change. |
| AdRepo.GetAdsList | homework09/internal/adapters/adrepo/repo.go:73-95 | Lists exactly the stored ads that pass the three filter conditions. |
| AdRepo.GetAdsList08 | homework08/internal/adapters/adrepo/repo.go:73-95 | Lists exactly the stored ads that pass homework08's conditions, where the first flag means "published only". |
| AdRepo.ListPolarity | homework08/internal/adapters/adrepo/repo.go:82 | homework08's list is homework09's with the publication flag negated. |
| AdRepo.ListAll | homework09/internal/adapters/adrepo/repo.go:82-90 | A filter that selects nothing lists every stored ad. |
| AdRepo.SearchAds | homework09/internal/adapters/adrepo/repo.go:97-112 | Finds exactly the stored ads whose title starts with the pattern. |
| AdRepo.SearchFindsTitles | homework09/internal/adapters/adrepo/repo.go:106 | The empty pattern finds every ad, and an ad's own title finds it. |
| AdRepo.DeleteAd | homework09/internal/adapters/adrepo/repo.go:114-128 | Removes the one entry and keeps `freeID`. An absent ID is `AdNotExist`. The invariant is kept. |
| AdRepo.AddThenGet | homework09/internal/adapters/adrepo/repo.go:34-46 | An added ad reads back under its new ID, and every other ID reads as before. |
| AdRepo.UpdateThenGet | homework09/internal/adapters/adrepo/repo.go:48-71 | After an update the ID reads back the returned ad, and every other ID reads as before. |
| AdRepo.DeleteThenGet | homework09/internal/adapters/adrepo/repo.go:114-128 | After a delete the ID is `AdNotExist`, and every other ID reads as before. |
| AdRepo.IdsNeverReused | homework09/internal/adapters/adrepo/repo.go:41-43 | An ad added after a delete never gets the deleted ID. |
| AdRepo.DenseCount | homework08/internal/adapters/adrepo/repo.go:34-46 | In a store that never deletes, the number of ads equals `freeID`. |
| AdRepo06.New | homework06/internal/adapters/adrepo/repo.go:41-45 | The empty slice. |
| AdRepo06.GetAdByID | homework06/internal/adapters/adrepo/repo.go:17-28 | A done context is `ContextErr`, whatever the ID. On a live context an ID past the end is `AdNotExist`, and otherwise it is the slot holding the ad with that ID. |
| AdRepo06.AddAd | homework06/internal/adapters/adrepo/repo.go:30-39 | The ad gets the current length as its ID and is appended. The earlier entries are unchanged. |
| AdRepo06.AddThenGet | homework06/internal/adapters/adrepo/repo.go:30-39 | An appended ad is found under its ID. |
| UserRepo.New | homework09/internal/adapters/user_repo/repo.go:83-88 | No users, and the first ID is 0. |
| UserRepo.GetUserByID | homework09/internal/adapters/user_repo/repo.go:17-30 | A done context is the repository error. Otherwise it succeeds exactly when the ID is stored and returns that user, and an absent ID is `UserNotExist`. |
| UserRepo.AddUser | homework09/internal/adapters/user_repo/repo.go:32-44 | The incoming ID is ignored. The user is stored under `freeID`, which was unused, and `freeID` advances. |
| UserRepo.UpdateUserFields | homework09/internal/adapters/user_repo/repo.go:46-65 | Nickname and email are replaced and the stored ID kept, whatever ID the new user carries. The keys never change. |
| UserRepo.DeleteUser | homework09/internal/adapters/user_repo/repo.go:67-81 | Removes the one entry. An absent ID is `UserNotExist`. |
| UserRepo.AddThenGet | homework09/internal/adapters/user_repo/repo.go:32-44 | A new user reads back under its ID, and every other ID reads as before. |
| UserRepo.DeleteThenAdd | homework09/internal/adapters/user_repo/repo.go:67-81 | A deleted ID reads as `UserNotExist`, and a later user never gets it. |
| UserRepo.FirstUserIsZero | homework09/internal/adapters/user_repo/repo.go:83-88 | The first user of a fresh store gets ID 0. |
| UserRepo08.New08 | homework08/internal/adapters/user_repo/repo.go:68-72 | No users. |
| UserRepo08.AddUser08 | homework08/internal/adapters/user_repo/repo.go:31-45 | Stores the user under its own ID unless that ID is taken, which gives `UserAlreadyExists` and changes nothing. |
| UserRepo08.NoOverwrite | homework08/internal/adapters/user_repo/repo.go:38-39 | A second user under a taken ID is refused, and the first still reads back. |
| App.CreateAd | homework10/internal/app/my_app.go:18-35 | The author lookup (call 0) comes first, then validity, then the store (call 1). A context done at the lookup is `UserRepositoryError`. One that ends between lookup and store is `AdRepositoryError`. It succeeds exactly when the context outlives both calls, the author exists and the title and text are valid. The ad is stored unpublished, by the author, dated today, under the next ID. Every failure leaves the store unchanged. |
| App.ChangeAdStatus | homework10/internal/app/my_app.go:37-50 | The user lookup, the ad lookup and the write are calls 0, 1 and 2. A context done at call 0 is `UserRepositoryError`; one done at call 1 or 2 is `AdRepositoryError`. Between the calls an absent user, an absent ad and another author fail in that order. It succeeds exactly when the context outlives all three calls, both exist and the user is the author. Then only the flag and the update date change. |
| App.UpdateAd | homework10/internal/app/my_app.go:52-76 | The same three calls and the same per-call context errors as the status change. User, ad and authorship are checked before validity of the new title and text, and validity before the write. It succeeds exactly when the context outlives all three calls and every check passes. Then only the title, text and update date change. |
| App.DeleteAd | homework10/internal/app/my_app.go:90-106 | The user lookup, the ad lookup and the delete are calls 0, 1 and 2, with the same per-call context errors. Gives a user error, then an ad error, then `WrongUserError` unless the stored user is the author. It succeeds exactly when the context outlives all three calls and those checks pass. Then exactly that ad is removed. |
| App.OnlyAuthorDeletes | homework10/internal/app/my_app.go:90-106 | With users stored under their own IDs, a delete succeeds exactly when the caller is the ad's author. |
| App.FailuresWriteNothing | homework10/internal/app/my_app.go:18-106 | Whenever the context ends, a failed create, status change, update or delete leaves the ad store unchanged. |
| App.CreateThenGet | homework10/internal/app/my_app.go:18-35 | A created ad reads back from the store as returned, unpublished and by its author. |
| App.CreateUser | homework10/internal/app/my_app.go:112-119 | The user gets the repository's next ID. |
| App.UpdateUser | homework10/internal/app/my_app.go:121-128 | The stored user keeps its ID and takes the new nickname and email. An absent user is `UserNotExist`. |
| App.CreateUser08 | homework08/internal/app/my_app.go:93-104 | The user is stored under the caller's ID unless it is taken. |
| App.UpdateUser08 | homework08/internal/app/my_app.go:106-114 | Read (call 0), change nickname and email, write back (call 1). A context done at either call is `UserRepositoryError`. An absent user is `UserNotExist`. With both calls live the stored user takes the new nickname and email. |
| App.UpdateUserAgree | homework10/internal/app/my_app.go:121-128 | homework10's one-call `UpdateUser` and homework08's read-then-write one have the same effect and result, except when the context ends between homework08's two calls. Then homework08 fails with `UserRepositoryError` where homework10 succeeds. |
| App06.CreateAd | homework06/internal/app/my_app.go:17-33 | Validation comes before the context check. On success the ad is appended unpublished under the next slot. |
| App06.ChangeAdStatus | homework06/internal/app/my_app.go:35-44 | A done context is `ContextErr`, whatever the ID. Only the author may change the flag. Only that slot changes, and the result is the stored ad. |
| App06.UpdateAd | homework06/internal/app/my_app.go:46-64 | A done context is `ContextErr`, whatever the ID. Lookup, authorship, then validity. Only the title and text of that slot change. |
| App06.CreateThenGet | homework06/internal/app/my_app.go:17-33 | A created ad is found under its ID, unpublished, by its creator. |
| GrpcErrors.CodeOf | homework09/internal/ports/grpc/errors.go:12-31 | Each code is picked by exactly the sentinels the switch lists for it. Anything else is `Unknown`. |
| GrpcErrors.ErrorToGRPCError | homework09/internal/ports/grpc/errors.go:10-33 | nil maps to nil. Any other error maps to a status with its code that keeps the error. |
| GrpcErrors.CallerErrors | homework09/internal/ports/grpc/errors.go:15-24 | The errors a caller can cause never map to `Unknown` or `ResourceExhausted`. |
| GrpcAd.AdToAdResponse | homework10/internal/ports/grpc/ad.go:13-31 | The response reads back as the ad, field for field and both dates whole. |
| GrpcAd.ResponseRoundTrip | homework10/internal/ports/grpc/ad.go:13-31 | The conversion is onto: every response is the image of the ad it reads back as. |
| GrpcAd.AdsListToListAdsResponse | homework10/internal/ports/grpc/ad.go:34-41 | The list is converted element by element, in order, and reads back as the list. |
| GrpcAd.AdToAdResponse09 | homework09/internal/ports/grpc/ad.go:12-30 | As written: the update date's month is the ad's update day. |
| GrpcAd.Hw09ReadsBack | homework09/internal/ports/grpc/ad.go:12-30 | homework09's response reads back as the ad with its update month replaced by its update day. |
| GrpcAd.Hw09AgreesWhen | homework09/internal/ports/grpc/ad.go:24-28 | homework09's and homework10's conversions agree exactly when the update day equals the update month. |
| GrpcAd.Hw09MonthLost | homework09/internal/ports/grpc/ad.go:26 | An ad updated on 9 March 2023 reads back as updated on 9 September 2023. |
| GrpcAd.UserToUserResponse | homework10/internal/ports/grpc/user.go:11-17 | The response reads back as the user. |
| GrpcAd.UserResponseRoundTrip | homework10/internal/ports/grpc/user.go:11-17 | Every user response is the image of the user it reads back as. |
| GrpcServer.AdReply | homework10/internal/ports/grpc/ad.go:43-50 | An App failure is answered with no response and the mapped status. A success is answered with no error and a response that reads back as the App's ad. |
| GrpcServer.ListReply | homework10/internal/ports/grpc/ad.go:95-100 | The same for lists, element by element. |
| GrpcServer.UserReply | homework10/internal/ports/grpc/user.go:19-26 | The same for users. |
| GrpcServer.CreateAd | homework10/internal/ports/grpc/ad.go:43-50 | Answers the App's `CreateAd` on the request's title, text and author. |
| GrpcServer.ChangeAdStatus | homework10/internal/ports/grpc/ad.go:52-59 | Answers the App's `ChangeAdStatus` on the request's ID, author and flag. |
| GrpcServer.UpdateAd | homework10/internal/ports/grpc/ad.go:61-68 | Answers the App's `UpdateAd` on the request's ID, author, title and text. |
| GrpcServer.GetAdByID | homework10/internal/ports/grpc/ad.go:70-77 | Answers the App's lookup of the request's ID. |
| GrpcServer.RequestFilter | homework10/internal/ports/grpc/ad.go:80-94 | The filter copies the request's flags and author. A missing date is the zero date. A given date converts back to itself. |
| GrpcServer.GetAdsList | homework10/internal/ports/grpc/ad.go:79-101 | Answers the App's list for the filter the request stands for. |
| GrpcServer.SearchAds | homework10/internal/ports/grpc/ad.go:103-110 | Answers the App's search for the request's pattern. |
| GrpcServer.DeleteAd | homework10/internal/ports/grpc/ad.go:112-114 | Always a non-nil `Empty`, with the mapped error. The request's author is passed as the user and its ID as the ad. |
| GrpcServer.GetUserByID | homework10/internal/ports/grpc/user.go:19-26 | Answers the App's lookup of the request's user ID. |
| GrpcServer.CreateUser | homework10/internal/ports/grpc/user.go:28-35 | Answers the App's `CreateUser` on the request's nickname and email. |
| GrpcServer.UpdateUser | homework10/internal/ports/grpc/user.go:37-44 | Answers the App's `UpdateUser` on the request's ID, nickname and email. |
| GrpcServer.DeleteUser | homework10/internal/ports/grpc/user.go:46-48 | Always a non-nil `Empty`, with the mapped error of the App's `DeleteUser`. |
| GrpcServer.CreateAdServed | homework10/internal/ports/grpc/ad.go:43-50 | Served by the homework10 App: an unknown author is `NotFound`, an invalid ad is `FailedPrecondition`, and a valid one comes back unpublished under the store's next ID. |
| GrpcServer.DeleteAdServed | homework10/internal/ports/grpc/ad.go:112-114 | Served by the homework10 App, a delete by someone other than the author is `PermissionDenied` with an `Empty` response. |
| Options.UnknownMessages | homework03/pkg/options/options.go:56-57 | One message per unknown token. There are none exactly when every token is known. |
| Options.SplitMessages | homework03/pkg/options/options.go:70 | Joining comma-free messages with ", " can be undone. Splitting the text on ',' gives back the first message, then each later one behind a space. |
| Options.ProblemsNoComma | homework03/pkg/options/options.go:45-66 | No problem message contains a comma: the unknown-flag ones quote tokens split on ',', and the other two are fixed texts. |
| Options.ErrorListsProblems | homework03/pkg/options/options.go:67-71 | A refusal's error text lists every problem in order. Split on ',', it gives back the problem list. |
| Options.ConvToken | homework03/pkg/options/options.go:49-58 | A known token sets only its own flag. An unknown token adds its message. |
| Options.ApplyConv | homework03/pkg/options/options.go:47-59 | After the loop a flag is set exactly when a token names it, and the unknown tokens are reported in order. |
| Options.CheckOptions | homework03/pkg/options/options.go:45-71 | Returns the options exactly when no problem is found, with each conversion flag set exactly when requested. Otherwise returns every problem, in order, joined by ", ". |
| Options.Accepted | homework03/pkg/options/options.go:45-71 | Accepted exactly when every token is known, the two cases do not clash and the block size is not 0. |
| Options.EmptyConv | homework03/pkg/options/options.go:46 | An empty conv argument asks for nothing and is not an error, though it would split into one empty token. |
| Options.NegativeBlockSize | homework03/pkg/options/options.go:64-66 | Only a zero block size is refused. A negative one passes. |
| Options.ClashRejected | homework03/pkg/options/options.go:61-63 | Asking for both cases is refused. |
| Options.ZeroBlockRejected | homework03/pkg/options/options.go:64-66 | A zero block size is refused, and its message comes last. |
| Options.EmptyTokenRejected | homework03/pkg/options/options.go:47-58 | A doubled or trailing comma gives an empty token, which is reported as unknown. |
| Conv.NewConv | homework03/pkg/conv/conv.go:27-44 | Upper case wins over lower case. Trimming is pending on both sides exactly when asked for. Nothing is held back. |
| Conv.CheckedCaseMode | homework03/pkg/conv/conv.go:31-41 | After the option checks, the case mode is exactly what the conv argument asked for and trimming is on exactly when requested. |
| Conv.LeftSpacesAmount | homework03/pkg/conv/trim.go:6-17 | The length of the longest all-space prefix: all spaces before it, a non-space at it. |
| Conv.RightSpacesAmount | homework03/pkg/conv/trim.go:20-31 | The reset-on-non-space scan gives the length of the longest all-space suffix. |
| Conv.LeftUnique | homework03/pkg/conv/trim.go:6-17 | Any count with the prefix properties is the left amount. |
| Conv.RightUnique | homework03/pkg/conv/trim.go:20-31 | Any count with the suffix properties is the right amount. |
| Conv.AmountsCoverAll | homework03/pkg/conv/trim.go:6-31 | Either amount covers the whole buffer exactly when it is all whitespace. |
| Conv.HoldBack | homework03/pkg/conv/trim.go:42-50 | Passed-on part plus new held-back run equals old held-back run plus chunk. An all-space chunk passes nothing on. Otherwise what passes ends in a non-space. |
| Conv.Trim | homework03/pkg/conv/trim.go:33-52 | With trimming off the chunk passes unchanged. Left trimming, once done, stays done. The held-back run stays whitespace. An all-space chunk passes nothing while right trimming is on. Output plus held-back run equals the old run plus the chunk. |
| Conv.NewConvInv | homework03/pkg/conv/conv.go:40-41 | A fresh trimming converter satisfies the stream invariant with no input and no output. |
| Conv.TrimStep | homework03/pkg/conv/trim.go:33-52 | One more chunk keeps the stream invariant. |
| Conv.StepContent | homework03/pkg/conv/trim.go:33-52 | Output so far plus held-back run is the input so far without its leading whitespace. |
| Conv.StepEdges | homework03/pkg/conv/trim.go:35-40 | The output never ends in whitespace. Left trimming is done exactly when a non-space has arrived. |
| Conv.StreamInv | homework03/pkg/conv/trim.go:33-52 | The invariant holds after any number of chunks. |
| Conv.StreamIsTrimSpace | homework03/pkg/conv/trim.go:33-52 | However the input is chunked, the output so far is the input so far with leading and trailing whitespace removed, as `strings.TrimSpace` would give it. The trailing run is held back. |
| Conv.InvIsTrimSpace | homework03/pkg/conv/trim.go:33-52 | Whatever state the trimmer is in, its stream invariant fixes the output: it is the input so far without leading and trailing whitespace. |
| Conv.TrimOff | homework03/pkg/conv/trim.go:33-52 | With trimming off, every chunk passes through unchanged and the state never changes. |
| Copier.Convert | homework03/pkg/copier/copier.go:47-56 | The chunk is cased once, from the current state. The limit is reached exactly when the count passes it. The cased chunk is cut to what the limit leaves, and is uncut otherwise. The cut chunk is trimmed once, from the state casing left. |
| Copier.Pipeline | homework03/pkg/copier/copier.go:44-66 | The reference run over the data chunks: one cased, one cut and one trimmed entry per chunk, in order, until a chunk passes the limit. It stops only when the cased bytes pass a non-negative limit, and otherwise they stay within it. |
| Copier.PipelineStops | homework03/pkg/copier/copier.go:64-66 | Once the limit has been passed, further chunks change nothing. |
| Copier.PipelineTrims | homework03/pkg/copier/copier.go:47-56 | With `NewConv` and trimming on, the trimmer's stream invariant holds over everything the run handed to `Trim`, however it was chunked and cut. |
| Copier.PipelineUntrimmed | homework03/pkg/copier/copier.go:47-56 | With trimming off, `Trim` hands every cut chunk on unchanged. |
| Copier.WrittenIsTrimmed | homework03/pkg/copier/copier.go:22-72 | For a run with `NewConv(opts)` and `Trim` that wrote everything it trimmed, the bytes written are `strings.TrimSpace` of the bytes handed to `Trim` when trimming is on, and exactly those chunks when it is off. |
| Copier.Uncut | homework03/pkg/copier/copier.go:50-51 | While the count stays within the limit nothing is cut. |
| Copier.Cut | homework03/pkg/copier/copier.go:51-54 | The chunk that passes the limit is cut to exactly the limit. |
| Copier.TrimmedInputIsPrefix | homework03/pkg/copier/copier.go:49-54 | What reaches `Trim` is a prefix of what `Case` produced: all of it with no limit, exactly the first `limit` bytes (or everything, when shorter) with one. |
| Copier.StepStops | homework03/pkg/copier/copier.go:35-40 | EOF ends the loop without error. A read error ends it with that error. |
| Copier.StepSkips | homework03/pkg/copier/copier.go:41-43 | An empty read changes nothing but the read count. |
| Copier.ChunkRead | homework03/pkg/copier/copier.go:44-56 | A data read adds one `Case` call and keeps the read and limit facts. |
| Copier.StepWriteFails | homework03/pkg/copier/copier.go:58-63 | A failing or short write ends the loop with that error, or with the bytes-lost message. |
| Copier.StepWritesLast | homework03/pkg/copier/copier.go:64-66 | A whole write of the chunk that reaches the limit ends the loop without error. |
| Copier.StepWrites | homework03/pkg/copier/copier.go:58-66 | A whole write below the limit continues the loop. |
| Copier.ScriptEnds | homework03/pkg/copier/copier.go:34-37 | A read past the script is EOF, which ends the loop without error. |
| Copier.CopyLoop | homework03/pkg/copier/copier.go:32-67 | What was cased, cut and trimmed is exactly the reference `Pipeline` over the data chunks read. Each chunk is cased once, cut at the limit, trimmed once and written in order. Only a failing last write is missing. The loop ends without error only at EOF, the end of the reads, or the limit. A read error is returned as it is. |
| Copier.Copy | homework03/pkg/copier/copier.go:22-72 | What was cased, cut and trimmed is exactly the reference `Pipeline` over the data chunks read. A discard error is returned before anything is read. Any early return skips flush and close. Otherwise everything trimmed was written, and the result is the flush error or, with none, the close result. |
| HttpGin.StrToID | homework_extra/internal/ports/httpgin/server.go:71-77 | As written: fails exactly when `Atoi` fails, then with -1. Otherwise returns the parsed value, negative ones included. |
| HttpGin.StrToIDItoa | homework_extra/internal/ports/httpgin/server.go:71-77 | Every int64 printed by `Itoa` parses back to itself without error. |
| HttpGin.FuzzSeeds | homework_extra/internal/ports/httpgin/server_test.go:61-67 | The seed corpus "0", "2", "12", "6" and "abc" parses as expected and passes the fuzz check. |
| HttpGin.MinusFiveBreaksOracle | homework_extra/internal/ports/httpgin/server_test.go:76 | "-5" parses to -5 without error, which the fuzz check rejects. |
| HttpGin.OracleFailsOnNegatives | homework_extra/internal/ports/httpgin/server_test.go:76 | The as-written function fails the check exactly on the negative numbers it accepts. |
| HttpGin.StrToIDNonNegative | homework_extra/internal/ports/httpgin/server.go:71-77 | Corrected: every result passes the fuzz check. It succeeds exactly on non-negative integers and then agrees with the as-written function. |
| HttpGin.NonNegativeItoa | homework_extra/internal/ports/httpgin/server.go:71-77 | The corrected function reads back every printed non-negative int64 and refuses every printed negative one. |

## Left out

- Concurrency: the mutexes of the repositories are not modelled. Every operation is atomic.
- Cancellation: a context is modelled only by how many repository calls of one operation it outlives. Each repository call checks it once, at its start. Deadlines, and a context that ends in the middle of a repository call, are not modelled.
- Zero values returned alongside an error (`ads.Ad{}`, `nil`) are not modelled; a `Result` carries only the error.
- Integer width: `freeID`, IDs and byte counts are unbounded. int64 overflow of `freeID` after 2^63 additions is not modelled.
- Go map iteration order: `GetAdsList` and `SearchAds` return sets. The order of the Go slices they build is unspecified.
- The pass-through App operations `GetAdByID`, `GetAdsList`, `SearchAds`, `GetUserByID` and `DeleteUser` (homework10/internal/app/my_app.go:78-88, 108-110, 130-132) each call one repository operation unchanged. They are covered by the repository members and the handler predicates and have no member of their own.
- The homework10 repositories are not part of this model. Only their tests exist in the source, so the homework09 repositories stand in for them.
- The gRPC status carries the error value rather than the text `status.Errorf` formats from it. The error texts are the sentinels' fixed strings.
- The homework08 to homework10 `ads.Ad` type is not part of this model. Its `Title` and `Text` tags are taken to be those of homework06's `ads.go`.
- validation/check's `ValidField` and `validValue` are not part of this model. `FieldCheck` follows homework07/check/check.go, with the `lenInterval` case that `validators.go` provides added to the string branch.
- `FieldCheck`, like Go's `reflect`: the field types other than int, string, []int, []string and structs are one `OtherV` value.
- Conv.Trim: the trimmer works on runes (one `char` per rune). Go counts bytes and decodes UTF-8 per chunk, so a multi-byte space split across two chunks is not modelled.
- Conv: `Case` (case.go) is not part of this model. `Copy` takes the case step as a function parameter.
- Copier.WrittenIsTrimmed, Copier.PipelineTrims and Copier.PipelineUntrimmed require the case step to leave the trimmer's fields alone (`KeepsTrim`). Since case.go is not part of this model, this is assumed of `Case`, not shown.
- Validator.Validate: two panics of the Go code are not modelled. `Validate(nil)` panics at validation/validator.go:38-41, because `reflect.TypeOf(nil)` is a nil type and `Kind` is called on it. An exported untagged field of interface type holding nil panics the same way at validator.go:77-80. Every modelled value has a kind, so neither input can be written.
- Copier.Copy: the block size is not modelled. A read result is the chunk the reader returned, and a negative block size, which panics in `make`, is outside the model.
- Copier.Copy requires a limit of at least -1. A limit below -1 makes the Go slice expression panic on the first chunk.
- Copier.CopyLoop: reads past the end of the script are `io.EOF`, and writes past the end of the script write everything.
- Copier: a `Read` that returns both data and an error is not modelled. The error is taken alone, as the Go loop does.
- Options: `flag.Parse`, the flag defaults and `filepath.Clean` of the two paths are not modelled. `CheckOptions` starts from the parsed values.
- TagCloud.TopN requires n >= 0, because a negative `n` makes `t.tagStats[:n]` panic.
- AdRepo06.GetAdByID requires a done context or id >= 0. The context is checked first, so a done context answers `ContextErr` for every ID. On a live context a negative ID indexes the slice out of range and panics.
- App06.ChangeAdStatus and App06.UpdateAd require a done context or adID >= 0, for the same reason.
- GrpcServer: the handlers use the corrected homework10 conversion. homework09's conversion is modelled only as `GrpcAd.AdToAdResponse09`.
- The `main.go` files, the HTTP (gin, fiber) ports, `read_write.go`, the interceptors and homework04/homework05 are outside the modelled core.

## Findings

| source | as written | input that shows it | evidently intended | confidence | as-written member | corrected member |
|---|---|---|---|---|---|---|
| homework09/internal/ports/grpc/ad.go:26 | The response's `UpdateDate.Month` is filled from `ad.UpdateDate.Day` | An ad updated on 9 March 2023 reads back as updated on 9 September 2023 | `Month: int64(ad.UpdateDate.Month)`, as homework10's ad.go:27 has it | high; not executed | GrpcAd.AdToAdResponse09 (with GrpcAd.Hw09MonthLost) | GrpcAd.AdToAdResponse (with GrpcAd.ResponseRoundTrip) |
| homework_extra/internal/ports/httpgin/server.go:71-77 | `strToID` accepts negative numbers without error, but the fuzz check at server_test.go:76 demands -1 with an error or a non-negative ID | "-5" gives (-5, nil), which the fuzz check rejects | Refuse negative IDs with -1 and an error, so that every result passes the fuzz check | medium, since the check itself might be the part in error; not executed | HttpGin.StrToID (with HttpGin.MinusFiveBreaksOracle) | HttpGin.StrToIDNonNegative |
