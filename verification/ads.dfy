/**
 * The domain records shared by the ad services of homework06, homework08,
 * homework09 and homework10: ads, users, dates, list filters and the error
 * sentinels. Go's `int64` fields are unbounded `int`s here.
 */
module Ads {
  import opened Wrappers
  import opened GoStrings
  import opened TagParse
  import opened Reflection
  import Validator
  import FieldCheck

  /** `ads.Date`: a calendar day; `time.Month` is an integer in Go. */
  datatype Date = Date(day: int, month: int, year: int)

  /** The zero `Date{}`. */
  const ZeroDate: Date := Date(0, 0, 0)

  /** `ads.Ad` of homework08 to homework10. */
  datatype Ad = Ad(
    id: int,
    title: string,
    text: string,
    authorID: int,
    published: bool,
    creationDate: Date,
    updateDate: Date)

  /** `ads.Ad` of homework06, which has no dates. */
  datatype Ad06 = Ad06(id: int, title: string, text: string, authorID: int, published: bool)

  /** `users.User`. */
  datatype User = User(id: int, nickname: string, email: string)

  /**
   * The error sentinels of the `errs` package, the two of the homework06
   * repository (`AdNotExist` shares its text, `ContextErr`), and any other
   * error, which the gRPC layer only passes through.
   */
  datatype Err =
    | ValidationError
    | WrongUserError
    | UserRepositoryError
    | AdRepositoryError
    | AdNotExist
    | UserNotExist
    | UserAlreadyExists
    | ContextErr
    | Other(message: string)

  /** `filter.Filter` of homework09 and homework10. */
  datatype Filter = Filter(publishedBy: bool, authorBy: bool, authorID: int, dateBy: bool, date: Date)

  /** `filter.Filter` of homework08, whose first flag has the opposite sense. */
  datatype Filter08 = Filter08(publishedOnly: bool, authorBy: bool, authorID: int, dateBy: bool, date: Date)

  // ---------------------------------------------------------------------
  // Validity of an ad, as the struct tags on its title and text declare it
  // ---------------------------------------------------------------------

  /** The tag on `Title`: `validate:"lenInterval:1,99"`. */
  const TitleTag: string := "lenInterval:1,99"

  /** The tag on `Text`: `validate:"lenInterval:1,499"`. */
  const TextTag: string := "lenInterval:1,499"

  /** What the two tags demand: a title of 1 to 99 bytes and a text of 1 to 499. */
  predicate AdValid(title: string, text: string) {
    1 <= |title| <= 99 && 1 <= |text| <= 499
  }

  function DateValue(d: Date): Value {
    StructV([
      Field("Day", true, None, IntV(d.day)),
      Field("Month", true, None, IntV(d.month)),
      Field("Year", true, None, IntV(d.year))])
  }

  /** The reflected view of a homework08 to homework10 ad. */
  function AdValue(ad: Ad): Value {
    StructV(AdFields(ad, TitleTag, TextTag))
  }

  function AdFields(ad: Ad, titleTag: string, textTag: string): seq<Field> {
    [Field("ID", true, None, IntV(ad.id)),
     Field("Title", true, Some(titleTag), StrV(ad.title)),
     Field("Text", true, Some(textTag), StrV(ad.text)),
     Field("AuthorID", true, None, IntV(ad.authorID)),
     Field("Published", true, None, OtherV),
     Field("CreationDate", true, None, DateValue(ad.creationDate)),
     Field("UpdateDate", true, None, DateValue(ad.updateDate))]
  }

  /** The reflected view of a homework06 ad. */
  function Ad06Value(ad: Ad06): Value {
    StructV(Ad06Fields(ad, TitleTag, TextTag))
  }

  function Ad06Fields(ad: Ad06, titleTag: string, textTag: string): seq<Field> {
    [Field("ID", true, None, IntV(ad.id)),
     Field("Title", true, Some(titleTag), StrV(ad.title)),
     Field("Text", true, Some(textTag), StrV(ad.text)),
     Field("AuthorID", true, None, IntV(ad.authorID)),
     Field("Published", true, None, OtherV)]
  }

  lemma ItoaSmall()
    ensures Itoa(1) == "1" && Itoa(99) == "99" && Itoa(499) == "499"
  {
    assert Digits(99) == Digits(9) + [DigitChar(9)];
    assert Digits(49) == Digits(4) + [DigitChar(9)];
    assert Digits(499) == Digits(49) + [DigitChar(9)];
  }

  /** The tags are the printed forms of their bounds. */
  lemma TagSpelling()
    ensures TitleTag == "lenInterval" + ":" + Itoa(1) + "," + Itoa(99)
    ensures TextTag == "lenInterval" + ":" + Itoa(1) + "," + Itoa(499)
  {
    ItoaSmall();
  }

  /** The two tags parse to the intervals they spell. */
  lemma TagsParse()
    ensures ValidationParams(TitleTag) == Parsed(LenInterval, PairArg(1, 99))
    ensures ValidationParams(TextTag) == Parsed(LenInterval, PairArg(1, 499))
  {
    TagSpelling();
    LenIntervalRoundTrip(1, 99);
    LenIntervalRoundTrip(1, 499);
  }

  /** A date's fields carry no tags, so a nested date never fails. */
  lemma {:induction false} DatePasses(d: Date)
    ensures Validator.Validate(DateValue(d)) == None
  {
  }

  /** A string field under a `lenInterval` tag fails exactly when its length leaves the interval. */
  lemma {:induction false} IntervalField(name: string, tag: string, s: string, a: int, b: int)
    requires ValidationParams(tag) == Parsed(LenInterval, PairArg(a, b))
    ensures Validator.FieldError(Field(name, true, Some(tag), StrV(s))).None? <==> a <= |s| <= b
  {
  }

  /** A struct whose fields other than `i` and `j` pass fails exactly when `i` or `j` does. */
  lemma {:induction false} TwoChecked(fs: seq<Field>, i: nat, j: nat)
    requires i < |fs| && j < |fs|
    requires forall k :: 0 <= k < |fs| && k != i && k != j ==> Validator.FieldError(fs[k]).None?
    ensures Validator.Validate(StructV(fs)).None? <==>
            Validator.FieldError(fs[i]).None? && Validator.FieldError(fs[j]).None?
  {
  }

  /** The untagged fields of an ad never fail. */
  lemma {:induction false} UntaggedAdFields(ad: Ad, titleTag: string, textTag: string)
    ensures var fs := AdFields(ad, titleTag, textTag);
      forall k :: 0 <= k < |fs| && k != 1 && k != 2 ==> Validator.FieldError(fs[k]).None?
  {
    DatePasses(ad.creationDate);
    DatePasses(ad.updateDate);
  }

  /** Under any tags that parse to the two intervals, an ad passes exactly when `AdValid` holds. */
  lemma {:induction false} AdFieldsValidity(ad: Ad, titleTag: string, textTag: string)
    requires ValidationParams(titleTag) == Parsed(LenInterval, PairArg(1, 99))
    requires ValidationParams(textTag) == Parsed(LenInterval, PairArg(1, 499))
    ensures Validator.Validate(StructV(AdFields(ad, titleTag, textTag))).None? <==> AdValid(ad.title, ad.text)
  {
    var fs := AdFields(ad, titleTag, textTag);
    IntervalField("Title", titleTag, ad.title, 1, 99);
    IntervalField("Text", textTag, ad.text, 1, 499);
    UntaggedAdFields(ad, titleTag, textTag);
    TwoChecked(fs, 1, 2);
  }

  lemma {:induction false} Ad06FieldsValidity(ad: Ad06, titleTag: string, textTag: string)
    requires ValidationParams(titleTag) == Parsed(LenInterval, PairArg(1, 99))
    requires ValidationParams(textTag) == Parsed(LenInterval, PairArg(1, 499))
    ensures Validator.Validate(StructV(Ad06Fields(ad, titleTag, textTag))).None? <==> AdValid(ad.title, ad.text)
  {
    var fs := Ad06Fields(ad, titleTag, textTag);
    IntervalField("Title", titleTag, ad.title, 1, 99);
    IntervalField("Text", textTag, ad.text, 1, 499);
    TwoChecked(fs, 1, 2);
  }

  /** `Validate` accepts a homework08 to homework10 ad exactly when `AdValid` holds. */
  lemma {:induction false} AdValidity(ad: Ad)
    ensures Validator.Validate(AdValue(ad)).None? <==> AdValid(ad.title, ad.text)
  {
    TagsParse();
    AdFieldsValidity(ad, TitleTag, TextTag);
  }

  /** `Validate` accepts a homework06 ad exactly when `AdValid` holds. */
  lemma {:induction false} Ad06Validity(ad: Ad06)
    ensures Validator.Validate(Ad06Value(ad)).None? <==> AdValid(ad.title, ad.text)
  {
    TagsParse();
    Ad06FieldsValidity(ad, TitleTag, TextTag);
  }

  /**
   * An empty title makes `Validate` fail with exactly one error, a field
   * value error, whose text is "value of field is not validate".
   */
  lemma {:induction false} EmptyTitleMessage(ad: Ad06)
    requires ad.title == "" && 1 <= |ad.text| <= 499
    ensures Validator.Validate(Ad06Value(ad)) == Some(Validator.Errors([Validator.FieldInvalid(FieldCheck.InvalidFieldValue)]))
    ensures Validator.Message(Validator.Validate(Ad06Value(ad)).value) == "value of field is not validate"
  {
    TagsParse();
    EmptyTitleFails(ad, TitleTag, TextTag);
    Validator.MessageOfErrors([Validator.FieldInvalid(FieldCheck.InvalidFieldValue)]);
  }

  lemma {:induction false} EmptyTitleFails(ad: Ad06, titleTag: string, textTag: string)
    requires ValidationParams(titleTag) == Parsed(LenInterval, PairArg(1, 99))
    requires ValidationParams(textTag) == Parsed(LenInterval, PairArg(1, 499))
    requires ad.title == "" && 1 <= |ad.text| <= 499
    ensures Validator.Validate(StructV(Ad06Fields(ad, titleTag, textTag))) ==
            Some(Validator.Errors([Validator.FieldInvalid(FieldCheck.InvalidFieldValue)]))
  {
    var fs := Ad06Fields(ad, titleTag, textTag);
    OthersPass06(ad, titleTag, textTag);
    assert Validator.FieldError(fs[1]) == Some(Validator.FieldInvalid(FieldCheck.InvalidFieldValue));
    Validator.OneFailing(fs, 1);
  }

  /** With a text of valid length, every field of a homework06 ad but the title passes. */
  lemma {:induction false} OthersPass06(ad: Ad06, titleTag: string, textTag: string)
    requires ValidationParams(textTag) == Parsed(LenInterval, PairArg(1, 499))
    requires 1 <= |ad.text| <= 499
    ensures var fs := Ad06Fields(ad, titleTag, textTag);
      forall i :: 0 <= i < |fs| && i != 1 ==> Validator.FieldError(fs[i]).None?
  {
    var fs := Ad06Fields(ad, titleTag, textTag);
    IntervalField("Text", textTag, ad.text, 1, 499);
    assert Validator.FieldError(fs[0]).None? && Validator.FieldError(fs[3]).None? && Validator.FieldError(fs[4]).None?;
  }
}
