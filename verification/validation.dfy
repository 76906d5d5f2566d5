/**
 * The per-value checks of the struct-tag validator: each one is a plain
 * comparison on a value (or on a string's byte length) and its arguments.
 */
module Validators {

  /** `validLen`: the byte length of `s` is exactly `n`. */
  predicate ValidLen(s: string, n: int) {
    |s| == n
  }

  /** `validIn`: a linear scan of `vals` that stops at the first match. */
  function ValidIn<T(==)>(val: T, vals: seq<T>): (r: bool)
    ensures r <==> val in vals
  {
    if |vals| == 0 then false
    else if vals[0] == val then true
    else ValidIn(val, vals[1..])
  }

  /** `validMin`. */
  predicate ValidMin(n: int, min: int) {
    n >= min
  }

  /** `validMax`. */
  predicate ValidMax(n: int, max: int) {
    n <= max
  }

  /** `validLenInterval`: the byte length of `s` lies in `[a, b]`. */
  predicate ValidLenInterval(s: string, a: int, b: int) {
    a <= |s| && |s| <= b
  }

  /** A negative length is never met. */
  lemma ValidLenNegative(s: string, n: int)
    requires n < 0
    ensures !ValidLen(s, n)
  {
  }

  /** Nothing is a member of an empty list of allowed values. */
  lemma ValidInEmpty<T>(val: T)
    ensures !ValidIn(val, [])
  {
  }

  /** The interval check is the minimum check and the maximum check on the length. */
  lemma LenIntervalIsMinMax(s: string, a: int, b: int)
    ensures ValidLenInterval(s, a, b) <==> ValidMin(|s|, a) && ValidMax(|s|, b)
    ensures a > b ==> !ValidLenInterval(s, a, b)
  {
  }
}

/**
 * The tag parsers: `validation/parse` and its predecessor in homework07,
 * which lacks the `lenInterval` operation.
 */
module TagParse {
  import opened Wrappers
  import opened GoStrings

  datatype Op = Wrong | Length | In | Min | Max | LenInterval

  /** The dynamically typed `args`: nil, an int, a string slice or a `[2]int`. */
  datatype Args = NoArgs | IntArg(n: int) | ListArg(items: seq<string>) | PairArg(lo: int, hi: int)

  datatype Parsed = Parsed(op: Op, args: Args)

  const WrongTag := Parsed(Wrong, NoArgs)

  /** The shape of `args` each operation carries. */
  predicate WellShaped(p: Parsed) {
    match p.op
    case Wrong => p.args == NoArgs
    case Length => p.args.IntArg?
    case Min => p.args.IntArg?
    case Max => p.args.IntArg?
    case In => p.args.ListArg? && |p.args.items| >= 1 && p.args.items[0] != ""
    case LenInterval => p.args.PairArg?
  }

  /** `len`, `min` and `max`: the argument must be a Go integer. */
  function IntParam(op: Op, arg: string): (r: Parsed)
    requires op == Length || op == Min || op == Max
    ensures WellShaped(r)
    ensures r.op != Wrong <==> Atoi(arg).Some?
    ensures r.op != Wrong ==> r == Parsed(op, IntArg(Atoi(arg).value))
  {
    match Atoi(arg)
    case None => WrongTag
    case Some(n) => Parsed(op, IntArg(n))
  }

  /** `in`: the comma-separated list, rejected when its first element is empty. */
  function InParam(arg: string): (r: Parsed)
    ensures WellShaped(r)
    ensures r.op != Wrong <==> Split(arg, ',')[0] != ""
    ensures r.op != Wrong ==> r == Parsed(In, ListArg(Split(arg, ',')))
  {
    var items := Split(arg, ',');
    if items[0] == "" then WrongTag else Parsed(In, ListArg(items))
  }

  /** `lenInterval`: exactly two comma-separated integers, kept in order. */
  function LenIntervalParam(arg: string): (r: Parsed)
    ensures WellShaped(r)
    ensures r.op != Wrong <==>
      var nums := Split(arg, ',');
      |nums| == 2 && Atoi(nums[0]).Some? && Atoi(nums[1]).Some?
    ensures r.op != Wrong ==>
      var nums := Split(arg, ',');
      r == Parsed(LenInterval, PairArg(Atoi(nums[0]).value, Atoi(nums[1]).value))
  {
    var nums := Split(arg, ',');
    if |nums| != 2 then WrongTag
    else match (Atoi(nums[0]), Atoi(nums[1]))
      case (Some(a), Some(b)) => Parsed(LenInterval, PairArg(a, b))
      case _ => WrongTag
  }

  /** The switch on the operation name in `validation/parse`. */
  function Dispatch(name: string, arg: string): (r: Parsed)
    ensures WellShaped(r)
  {
    if name == "len" then IntParam(Length, arg)
    else if name == "in" then InParam(arg)
    else if name == "min" then IntParam(Min, arg)
    else if name == "max" then IntParam(Max, arg)
    else if name == "lenInterval" then LenIntervalParam(arg)
    else WrongTag
  }

  /** The switch on the operation name in homework07: no `lenInterval` case. */
  function Hw07Dispatch(name: string, arg: string): (r: Parsed)
    ensures WellShaped(r) && r.op != LenInterval
  {
    if name == "len" then IntParam(Length, arg)
    else if name == "in" then InParam(arg)
    else if name == "min" then IntParam(Min, arg)
    else if name == "max" then IntParam(Max, arg)
    else WrongTag
  }

  /**
   * `ValidationParams` of `validation/parse`: the tag is split on ':', a
   * tag with one piece is rejected, and the first two pieces are the
   * operation name and its argument.
   */
  function ValidationParams(tag: string): (r: Parsed)
    ensures WellShaped(r)
    ensures r.op != Wrong ==> ':' in tag
  {
    var temp := Split(tag, ':');
    SplitNoSep(tag, ':');
    if |temp| <= 1 then WrongTag else Dispatch(temp[0], temp[1])
  }

  /** `ValidationParams` of homework07. */
  function Hw07ValidationParams(tag: string): (r: Parsed)
    ensures WellShaped(r) && r.op != LenInterval
    ensures r.op != Wrong ==> ':' in tag
  {
    var temp := Split(tag, ':');
    SplitNoSep(tag, ':');
    if |temp| <= 1 then WrongTag else Hw07Dispatch(temp[0], temp[1])
  }

  /** Which branch of the switch each known operation name takes. */
  lemma {:induction false} DispatchNames(arg: string)
    ensures Dispatch("len", arg) == Hw07Dispatch("len", arg) == IntParam(Length, arg)
    ensures Dispatch("in", arg) == Hw07Dispatch("in", arg) == InParam(arg)
    ensures Dispatch("min", arg) == Hw07Dispatch("min", arg) == IntParam(Min, arg)
    ensures Dispatch("max", arg) == Hw07Dispatch("max", arg) == IntParam(Max, arg)
    ensures Dispatch("lenInterval", arg) == LenIntervalParam(arg)
    ensures Hw07Dispatch("lenInterval", arg) == WrongTag
  {
    assert "min"[0] != "len"[0];
    assert "max"[1] != "min"[1] && "max"[0] != "len"[0];
    assert |"lenInterval"| != 3 && |"lenInterval"| != 2;
  }

  /** A tag without ':' is rejected by both parsers. */
  lemma NoColonIsWrong(tag: string)
    requires ':' !in tag
    ensures ValidationParams(tag) == WrongTag
    ensures Hw07ValidationParams(tag) == WrongTag
  {
    SplitNoSep(tag, ':');
  }

  /** `name:arg` is dispatched on `name` with argument `arg`. */
  lemma ParamsOfTag(name: string, arg: string)
    requires ':' !in name && ':' !in arg
    ensures ValidationParams(name + ":" + arg) == Dispatch(name, arg)
    ensures Hw07ValidationParams(name + ":" + arg) == Hw07Dispatch(name, arg)
  {
    SplitCons(name, ':', arg);
    assert name + ":" + arg == name + [':'] + arg;
    SplitNoSep(arg, ':');
  }

  /** Only the segment between the first and second ':' is read. */
  lemma {:induction false} LaterSegmentsIgnored(name: string, arg: string, rest: string)
    requires ':' !in name && ':' !in arg
    ensures ValidationParams(name + ":" + arg + ":" + rest) == ValidationParams(name + ":" + arg)
    ensures Hw07ValidationParams(name + ":" + arg + ":" + rest) == Hw07ValidationParams(name + ":" + arg)
  {
    var tag := name + ":" + arg + ":" + rest;
    assert tag == name + [':'] + (arg + [':'] + rest);
    SplitCons(name, ':', arg + [':'] + rest);
    SplitCons(arg, ':', rest);
    ParamsOfTag(name, arg);
  }

  /** Itoa never writes a ':' or a ','. */
  lemma ItoaPlain(n: int)
    ensures ':' !in Itoa(n) && ',' !in Itoa(n)
  {
    var s := Itoa(n);
    var d := if n < 0 then Digits(-n) else Digits(n);
    assert forall i :: 0 <= i < |d| ==> IsDigit(d[i]);
    if n < 0 {
      assert forall i :: 1 <= i < |s| ==> s[i] == d[i - 1];
    }
  }

  /** `len:n`, `min:n` and `max:n` parse back to the integer `n`. */
  lemma {:induction false} IntTagRoundTrip(n: int)
    requires InInt64(n)
    ensures ValidationParams("len" + ":" + Itoa(n)) == Parsed(Length, IntArg(n))
    ensures ValidationParams("min" + ":" + Itoa(n)) == Parsed(Min, IntArg(n))
    ensures ValidationParams("max" + ":" + Itoa(n)) == Parsed(Max, IntArg(n))
  {
    ItoaPlain(n);
    AtoiItoa(n);
    DispatchNames(Itoa(n));
    ParamsOfTag("len", Itoa(n));
    ParamsOfTag("min", Itoa(n));
    ParamsOfTag("max", Itoa(n));
  }

  /** `in:` accepts exactly the lists whose first element is non-empty. */
  lemma InTag(arg: string)
    requires ':' !in arg
    ensures ValidationParams("in" + ":" + arg).op == In <==> Split(arg, ',')[0] != ""
    ensures ValidationParams("in" + ":" + arg).op == In ==>
              ValidationParams("in" + ":" + arg).args == ListArg(Split(arg, ','))
    ensures ValidationParams("in" + ":" + arg).op != In ==> ValidationParams("in" + ":" + arg) == WrongTag
  {
    ParamsOfTag("in", arg);
    DispatchNames(arg);
  }

  /** The empty list `in:` is rejected. */
  lemma EmptyInIsWrong()
    ensures ValidationParams("in:") == WrongTag
  {
    InTag("");
    assert "in" + ":" + "" == "in:";
  }

  /** `lenInterval:a,b` parses back to the pair `(a, b)`. */
  lemma {:induction false} LenIntervalRoundTrip(a: int, b: int)
    requires InInt64(a) && InInt64(b)
    ensures ValidationParams("lenInterval" + ":" + Itoa(a) + "," + Itoa(b)) == Parsed(LenInterval, PairArg(a, b))
  {
    var x, y := Itoa(a), Itoa(b);
    ItoaPlain(a);
    ItoaPlain(b);
    AtoiItoa(a);
    AtoiItoa(b);
    var arg := x + [','] + y;
    TagOfPair("lenInterval", x, y);
    assert ':' !in arg;
    ParamsOfTag("lenInterval", arg);
    DispatchNames(arg);
    SplitCons(x, ',', y);
    SplitNoSep(y, ',');
    assert Split(arg, ',') == [x, y];
  }

  /** The text of a two-item tag is its name, ':' and the items joined by ','. */
  lemma TagOfPair(name: string, x: string, y: string)
    ensures name + ":" + x + "," + y == name + ":" + (x + [','] + y)
  {
    var l, r := name + ":" + x + "," + y, name + ":" + (x + [','] + y);
    assert |l| == |r|;
    forall i | 0 <= i < |l|
      ensures l[i] == r[i]
    {
      if i < |name| + 1 {
        assert l[i] == (name + ":")[i] == r[i];
      } else {
        assert l[i] == (x + [','] + y)[i - |name| - 1];
      }
    }
  }

  /** A `lenInterval` argument with other than two pieces is rejected. */
  lemma {:induction false} LenIntervalNeedsTwo(arg: string)
    requires ':' !in arg && |Split(arg, ',')| != 2
    ensures ValidationParams("lenInterval" + ":" + arg) == WrongTag
  {
    ParamsOfTag("lenInterval", arg);
    DispatchNames(arg);
  }

  /** An operation name outside the five known ones is rejected. */
  lemma UnknownOpIsWrong(name: string, arg: string)
    requires ':' !in name && ':' !in arg
    requires name !in {"len", "in", "min", "max", "lenInterval"}
    ensures ValidationParams(name + ":" + arg) == WrongTag
  {
    ParamsOfTag(name, arg);
  }

  /**
   * The two parsers agree on every tag whose operation name is not
   * `lenInterval`; homework07 rejects that one.
   */
  lemma Hw07Agrees(tag: string)
    ensures Split(tag, ':')[0] != "lenInterval" ==> Hw07ValidationParams(tag) == ValidationParams(tag)
    ensures Split(tag, ':')[0] == "lenInterval" ==> Hw07ValidationParams(tag) == WrongTag
  {
  }
}
