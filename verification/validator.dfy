/**
 * What the validator sees of a Go value through `reflect`: a struct is the
 * sequence of its fields in declaration order, each with its name, whether
 * it is exported, its `validate` tag if it has one, and its value.
 */
module Reflection {
  import opened Wrappers

  datatype Value =
    | IntV(i: int)
    | StrV(s: string)
    | IntSeq(ints: seq<int>)
    | StrSeq(strs: seq<string>)
    | StructV(fields: seq<Field>)
    | OtherV

  datatype Field = Field(name: string, exported: bool, tag: Option<string>, value: Value)
}

/**
 * `ValidField` of homework07's `check` package, with the string case of
 * `lenInterval` that `validation/check/validators.go` adds.
 */
module FieldCheck {
  import opened Wrappers
  import opened GoStrings
  import opened Validators
  import opened TagParse
  import opened Reflection

  datatype CheckErr = InvalidFieldValue | InvalidFieldType

  /** A check result: `None` is Go's nil. */
  type Outcome = Option<CheckErr>

  function Verdict(ok: bool): Outcome {
    if ok then None else Some(InvalidFieldValue)
  }

  /** `strconv.Atoi` over every argument of `in`, failing if any one fails. */
  function AtoiAll(strs: seq<string>): (r: Option<seq<int>>)
    ensures r.Some? <==> forall i :: 0 <= i < |strs| ==> Atoi(strs[i]).Some?
    ensures r.Some? ==> |r.value| == |strs|
    ensures r.Some? ==> forall i :: 0 <= i < |strs| ==> r.value[i] == Atoi(strs[i]).value
  {
    if |strs| == 0 then Some([])
    else match (Atoi(strs[0]), AtoiAll(strs[1..]))
      case (Some(n), Some(rest)) => Some([n] + rest)
      case _ => None
  }

  /** `validValue` on a string: lengths are byte lengths. */
  function StrValue(s: string, p: Parsed): Outcome
    requires WellShaped(p)
  {
    match p.op
    case Length => Verdict(ValidLen(s, p.args.n))
    case In => Verdict(ValidIn(s, p.args.items))
    case Min => Verdict(ValidMin(|s|, p.args.n))
    case Max => Verdict(ValidMax(|s|, p.args.n))
    case LenInterval => Verdict(ValidLenInterval(s, p.args.lo, p.args.hi))
    case Wrong => None
  }

  /** `validValue` on an int: `in` first converts its arguments to ints. */
  function IntValue(n: int, p: Parsed): Outcome
    requires WellShaped(p)
  {
    match p.op
    case In =>
      (match AtoiAll(p.args.items)
       case None => Some(InvalidFieldType)
       case Some(ints) => Verdict(ValidIn(n, ints)))
    case Min => Verdict(ValidMin(n, p.args.n))
    case Max => Verdict(ValidMax(n, p.args.n))
    case _ => None
  }

  /** `validSlice`: the first element's error, or nil when every element passes. */
  function ValidSlice(vals: seq<Value>, p: Parsed): (r: Outcome)
    requires WellShaped(p)
    requires forall i :: 0 <= i < |vals| ==> vals[i].IntV? || vals[i].StrV?
    ensures r.None? <==> forall i :: 0 <= i < |vals| ==> ScalarValue(vals[i], p).None?
    ensures r.Some? ==> exists i :: 0 <= i < |vals| && ScalarValue(vals[i], p) == r &&
                          forall j :: 0 <= j < i ==> ScalarValue(vals[j], p).None?
  {
    if |vals| == 0 then None
    else match ScalarValue(vals[0], p)
      case Some(e) => Some(e)
      case None =>
        var r := ValidSlice(vals[1..], p);
        assert forall i :: 1 <= i < |vals| ==> vals[1..][i - 1] == vals[i];
        r
  }

  function ScalarValue(v: Value, p: Parsed): Outcome
    requires WellShaped(p)
    requires v.IntV? || v.StrV?
  {
    if v.StrV? then StrValue(v.s, p) else IntValue(v.i, p)
  }

  function IntElems(ns: seq<int>): (vs: seq<Value>)
    ensures |vs| == |ns| && forall i :: 0 <= i < |ns| ==> vs[i] == IntV(ns[i])
  {
    seq(|ns|, i requires 0 <= i < |ns| => IntV(ns[i]))
  }

  function StrElems(ss: seq<string>): (vs: seq<Value>)
    ensures |vs| == |ss| && forall i :: 0 <= i < |ss| ==> vs[i] == StrV(ss[i])
  {
    seq(|ss|, i requires 0 <= i < |ss| => StrV(ss[i]))
  }

  /**
   * `ValidField`: `[]int` and `[]string` are checked element by element,
   * `int` and `string` directly, and any other type is refused.
   */
  function ValidField(v: Value, p: Parsed): (r: Outcome)
    requires WellShaped(p)
    ensures !(v.IntV? || v.StrV? || v.IntSeq? || v.StrSeq?) ==> r == Some(InvalidFieldType)
    ensures v.IntSeq? ==> (r.None? <==> forall i :: 0 <= i < |v.ints| ==> IntValue(v.ints[i], p).None?)
    ensures v.StrSeq? ==> (r.None? <==> forall i :: 0 <= i < |v.strs| ==> StrValue(v.strs[i], p).None?)
  {
    match v
    case IntSeq(ns) => ValidSlice(IntElems(ns), p)
    case StrSeq(ss) => ValidSlice(StrElems(ss), p)
    case IntV(n) => IntValue(n, p)
    case StrV(s) => StrValue(s, p)
    case _ => Some(InvalidFieldType)
  }

  /** What each operation demands of a string, in terms of its byte length. */
  lemma {:induction false} StringChecks(s: string, n: int, items: seq<string>, a: int, b: int)
    requires |items| >= 1 && items[0] != ""
    ensures ValidField(StrV(s), Parsed(Length, IntArg(n))).None? <==> |s| == n
    ensures ValidField(StrV(s), Parsed(In, ListArg(items))).None? <==> s in items
    ensures ValidField(StrV(s), Parsed(Min, IntArg(n))).None? <==> |s| >= n
    ensures ValidField(StrV(s), Parsed(Max, IntArg(n))).None? <==> |s| <= n
    ensures ValidField(StrV(s), Parsed(LenInterval, PairArg(a, b))).None? <==> a <= |s| <= b
    ensures ValidField(StrV(s), Parsed(Length, IntArg(n))) in {None, Some(InvalidFieldValue)}
  {
  }

  /** What each operation demands of an int. */
  lemma IntChecks(k: int, n: int, a: int, b: int)
    ensures ValidField(IntV(k), Parsed(Min, IntArg(n))).None? <==> k >= n
    ensures ValidField(IntV(k), Parsed(Max, IntArg(n))).None? <==> k <= n
    ensures ValidField(IntV(k), Parsed(Length, IntArg(n))).None?
    ensures ValidField(IntV(k), Parsed(LenInterval, PairArg(a, b))).None?
  {
  }

  /**
   * An int under `in` passes iff every argument is an integer and one of
   * them equals it; a single non-integer argument makes it a type error
   * even when another argument matches.
   */
  lemma {:induction false} IntInCheck(k: int, items: seq<string>)
    requires |items| >= 1 && items[0] != ""
    ensures ValidField(IntV(k), Parsed(In, ListArg(items))).None? <==>
              (forall i :: 0 <= i < |items| ==> Atoi(items[i]).Some?) &&
              exists i :: 0 <= i < |items| && Atoi(items[i]) == Some(k)
    ensures (exists i :: 0 <= i < |items| && Atoi(items[i]).None?) ==>
              ValidField(IntV(k), Parsed(In, ListArg(items))) == Some(InvalidFieldType)
  {
    var r := AtoiAll(items);
    if r.Some? {
      if k in r.value {
        var i :| 0 <= i < |r.value| && r.value[i] == k;
        assert Atoi(items[i]) == Some(k);
      }
    }
  }

  /** An empty slice passes whatever the operation. */
  lemma EmptySlicePasses(p: Parsed)
    requires WellShaped(p)
    ensures ValidField(IntSeq([]), p) == None && ValidField(StrSeq([]), p) == None
  {
  }
}

/**
 * `Validate` of `validation/validator.go`: walks the fields of a struct,
 * collects at most one error per field, and recurses into untagged
 * exported struct fields.
 */
module Validator {
  import opened Wrappers
  import opened GoStrings
  import opened TagParse
  import opened Reflection
  import opened FieldCheck

  datatype VErr =
    | NotStruct
    | InvalidValidatorSyntax
    | ValidateForUnexportedFields
    | FieldInvalid(err: CheckErr)
    /** `ValidationErrors`: the list of per-field errors. */
    | Errors(list: seq<VErr>)

  /** The error a single field contributes, if any. */
  function FieldError(f: Field): (r: Option<VErr>)
    decreases f, 1
  {
    match f.tag
    case Some(tag) =>
      if !f.exported then Some(ValidateForUnexportedFields)
      else
        var p := ValidationParams(tag);
        if p.op == Wrong then Some(InvalidValidatorSyntax)
        else
          (match ValidField(f.value, p)
           case None => None
           case Some(e) => Some(FieldInvalid(e)))
    case None =>
      if f.exported && f.value.StructV? then Validate(f.value) else None
  }

  /** The errors of `fields`, in field order. */
  function FieldErrors(fields: seq<Field>): (errs: seq<VErr>)
    ensures |errs| <= |fields|
    ensures |errs| == 0 <==> forall i :: 0 <= i < |fields| ==> FieldError(fields[i]).None?
    decreases fields, 2
  {
    if |fields| == 0 then []
    else
      var rest := FieldErrors(fields[1..]);
      assert forall i :: 1 <= i < |fields| ==> fields[1..][i - 1] == fields[i];
      match FieldError(fields[0])
      case None => rest
      case Some(e) => [e] + rest
  }

  /**
   * `Validate`: a non-struct is refused with a bare `ErrNotStruct`;
   * otherwise the collected list is returned, or nil when it is empty.
   */
  function Validate(v: Value): (r: Option<VErr>)
    ensures !v.StructV? ==> r == Some(NotStruct)
    ensures v.StructV? ==> (r.None? <==> forall i :: 0 <= i < |v.fields| ==> FieldError(v.fields[i]).None?)
    ensures v.StructV? && r.Some? ==> r.value.Errors? && 1 <= |r.value.list| <= |v.fields|
    decreases v, 3
  {
    match v
    case StructV(fields) =>
      var errs := FieldErrors(fields);
      if |errs| == 0 then None else Some(Errors(errs))
    case _ => Some(NotStruct)
  }

  /** The errors of two runs of fields are those of each, in order. */
  lemma {:induction false} FieldErrorsAppend(a: seq<Field>, b: seq<Field>)
    ensures FieldErrors(a + b) == FieldErrors(a) + FieldErrors(b)
  {
    if |a| > 0 {
      assert (a + b)[1..] == a[1..] + b;
      FieldErrorsAppend(a[1..], b);
    } else {
      assert a + b == b;
    }
  }

  /** A one-field struct fails with that field's error alone. */
  lemma {:induction false} SingleField(f: Field)
    ensures FieldError(f).None? ==> Validate(StructV([f])) == None
    ensures FieldError(f).Some? ==> Validate(StructV([f])) == Some(Errors([FieldError(f).value]))
  {
    assert [f][1..] == [];
    assert FieldErrors([f][1..]) == [];
    if FieldError(f).Some? {
      var e := FieldError(f).value;
      assert FieldErrors([f]) == [e] + [];
      assert [e] + [] == [e];
      assert Validate(StructV([f])) == Some(Errors(FieldErrors([f])));
    }
  }

  /** A struct in which only field `k` fails yields that field's error alone. */
  lemma {:induction false} OneFailing(fs: seq<Field>, k: nat)
    requires k < |fs| && FieldError(fs[k]).Some?
    requires forall i :: 0 <= i < |fs| && i != k ==> FieldError(fs[i]).None?
    ensures Validate(StructV(fs)) == Some(Errors([FieldError(fs[k]).value]))
  {
    var e := FieldError(fs[k]).value;
    var pre, rest := fs[..k], fs[k + 1..];
    var post := [fs[k]] + rest;
    SliceAround(fs, k);
    FieldErrorsAppend(pre, post);
    Passing(fs, k, 0, k);
    Passing(fs, k, k + 1, |fs|);
    assert FieldErrors(post) == [e] + FieldErrors(rest);
    assert FieldErrors(fs) == [e];
  }

  /** `fs` is the part before `k`, then `fs[k]`, then the part after. */
  lemma SliceAround(fs: seq<Field>, k: nat)
    requires k < |fs|
    ensures fs == fs[..k] + ([fs[k]] + fs[k + 1..])
    ensures ([fs[k]] + fs[k + 1..])[1..] == fs[k + 1..]
  {
  }

  /** A slice that leaves out the one failing field has no errors. */
  lemma {:induction false} Passing(fs: seq<Field>, k: nat, lo: nat, hi: nat)
    requires lo <= hi <= |fs| && (k < lo || hi <= k)
    requires forall i :: 0 <= i < |fs| && i != k ==> FieldError(fs[i]).None?
    ensures FieldErrors(fs[lo..hi]) == []
  {
    var s := fs[lo..hi];
    assert forall i :: 0 <= i < |s| ==> s[i] == fs[lo + i];
  }

  /** A tagged unexported field yields exactly the unexported-field error, whatever its tag. */
  lemma {:induction false} UnexportedTagged(name: string, tag: string, value: Value)
    ensures Validate(StructV([Field(name, false, Some(tag), value)])) ==
            Some(Errors([ValidateForUnexportedFields]))
  {
    SingleField(Field(name, false, Some(tag), value));
  }

  /** A tagged exported field whose tag does not parse yields the syntax error. */
  lemma {:induction false} BadTagSyntax(name: string, tag: string, value: Value)
    requires ValidationParams(tag).op == Wrong
    ensures Validate(StructV([Field(name, true, Some(tag), value)])) == Some(Errors([InvalidValidatorSyntax]))
  {
    SingleField(Field(name, true, Some(tag), value));
  }

  /** Untagged fields are skipped unless they are exported structs. */
  lemma {:induction false} UntaggedSkipped(f: Field)
    requires f.tag.None? && !(f.exported && f.value.StructV?)
    ensures FieldError(f).None?
  {
  }

  /**
   * An untagged exported struct field contributes the nested list as a
   * single error, however many of its own fields fail.
   */
  lemma {:induction false} NestedOneError(name: string, inner: seq<Field>)
    requires FieldErrors(inner) != []
    ensures Validate(StructV([Field(name, true, None, StructV(inner))])) ==
            Some(Errors([Errors(FieldErrors(inner))]))
  {
    SingleField(Field(name, true, None, StructV(inner)));
  }

  // ---------------------------------------------------------------------
  // The text of an error
  // ---------------------------------------------------------------------

  function CheckMessage(e: CheckErr): string {
    match e
    case InvalidFieldValue => "value of field is not validate"
    case InvalidFieldType => "invalid type of field"
  }

  /** `Error()`: the message of a sentinel, or of a `ValidationErrors` list. */
  function Message(e: VErr): string
    decreases e, 1
  {
    match e
    case NotStruct => "wrong argument given, should be a struct"
    case InvalidValidatorSyntax => "invalid validator syntax"
    case ValidateForUnexportedFields => "validation for unexported field is not allowed"
    case FieldInvalid(c) => CheckMessage(c)
    case Errors(list) =>
      if |list| == 0 then ""
      else if |list| == 1 then Message(list[0])
      else Lines(list)
  }

  /** Each message followed by a newline. */
  function Lines(list: seq<VErr>): string
    decreases list, 0
  {
    if |list| == 0 then "" else Message(list[0]) + "\n" + Lines(list[1..])
  }

  /** The lines of a list are the lines of its parts, one after the other. */
  lemma {:induction false} LinesAppend(a: seq<VErr>, b: seq<VErr>)
    ensures Lines(a + b) == Lines(a) + Lines(b)
  {
    if |a| > 0 {
      assert (a + b)[1..] == a[1..] + b;
      LinesAppend(a[1..], b);
    } else {
      assert a + b == b;
    }
  }

  /**
   * The text of a list: empty for none, the sole message for one, and for
   * several the concatenation of every message followed by a newline.
   */
  lemma MessageOfErrors(list: seq<VErr>)
    ensures |list| == 0 ==> Message(Errors(list)) == ""
    ensures |list| == 1 ==> Message(Errors(list)) == Message(list[0])
    ensures |list| >= 2 ==> Message(Errors(list)) == Lines(list)
    ensures forall e :: Lines([e]) == Message(e) + "\n"
  {
    forall e
      ensures Lines([e]) == Message(e) + "\n"
    {
      assert [e][1..] == [];
    }
  }

  /** A list of several errors always ends with a newline. */
  lemma {:induction false} SeveralEndWithNewline(list: seq<VErr>)
    requires |list| >= 2
    ensures var m := Message(Errors(list)); |m| >= 1 && m[|m| - 1] == '\n'
  {
    var n := |list|;
    assert list == list[..n - 1] + [list[n - 1]];
    LinesAppend(list[..n - 1], [list[n - 1]]);
    assert [list[n - 1]][1..] == [];
  }
}
