/**
 * The option checks of homework03's `ParseFlags`. Reading the command line and
 * cleaning the two paths are left to the caller. What is modelled here is the
 * step after `flag.Parse`: it splits the `-conv` argument on commas, sets one
 * flag per known token, collects an error for every problem found, and either
 * returns the options or the errors joined by ", ".
 */
module Options {
  import opened Wrappers
  import opened GoStrings

  /** The values `flag.Parse` fills in, before the conv argument is read. */
  datatype Flags = Flags(from: string, to: string, blockSize: int, offset: int, limit: int)

  /** `options.Options`. */
  datatype Options = Options(
    from: string,
    to: string,
    blockSize: int,
    offset: int,
    limit: int,
    upperCase: bool,
    lowerCase: bool,
    trimSpaces: bool)

  /** The default of `-block-size`. */
  const DefaultBufferSize: int := 4096

  const UpperCaseFlag: string := "upper_case"
  const LowerCaseFlag: string := "lower_case"
  const TrimSpacesFlag: string := "trim_spaces"

  const UnknownFlagMessage: string := "unknown conv flag: "
  const ClashMessage: string := "both upper_case and lower_case"
  const ZeroBlockMessage: string := "block-size = 0"

  predicate Known(tok: string) {
    tok == UpperCaseFlag || tok == LowerCaseFlag || tok == TrimSpacesFlag
  }

  predicate AllKnown(toks: seq<string>) {
    forall i :: 0 <= i < |toks| ==> Known(toks[i])
  }

  /** Whether the conv argument asks for the named conversion. */
  predicate Requested(conv: string, name: string) {
    conv != "" && name in Split(conv, ',')
  }

  /** One "unknown conv flag" message per unknown token, in order. */
  function UnknownMessages(toks: seq<string>): (ms: seq<string>)
    ensures |ms| <= |toks|
    ensures |ms| == 0 <==> AllKnown(toks)
  {
    if |toks| == 0 then []
    else
      (if Known(toks[0]) then [] else [UnknownFlagMessage + toks[0]]) + UnknownMessages(toks[1..])
  }

  /** Every problem the checks report, in the order they report them. */
  function Problems(flags: Flags, conv: string): seq<string> {
    (if conv != "" then UnknownMessages(Split(conv, ',')) else [])
    + (if Requested(conv, UpperCaseFlag) && Requested(conv, LowerCaseFlag) then [ClashMessage] else [])
    + (if flags.blockSize == 0 then [ZeroBlockMessage] else [])
  }

  /** `strings.Join(parts, ", ")`. */
  function JoinMessages(parts: seq<string>): (s: string)
    ensures |parts| == 1 ==> s == parts[0]
  {
    if |parts| == 0 then ""
    else if |parts| == 1 then parts[0]
    else parts[0] + ", " + JoinMessages(parts[1..])
  }

  /** Each message after the first, as a split on ',' gives it back: with the space of ", " in front. */
  function Spaced(parts: seq<string>): (r: seq<string>)
    ensures |r| == |parts|
    ensures forall i :: 0 <= i < |parts| ==> r[i] == " " + parts[i]
  {
    seq(|parts|, i requires 0 <= i < |parts| => " " + parts[i])
  }

  /** A space in front of the first message is a space in front of the joined text. */
  lemma JoinMessagesSpaced(p: string, rest: seq<string>)
    ensures JoinMessages([" " + p] + rest) == " " + JoinMessages([p] + rest)
  {
    assert ([" " + p] + rest)[1..] == rest;
    assert ([p] + rest)[1..] == rest;
  }

  /** A space in front of a comma-free message adds no comma. */
  lemma SpaceNoComma(p: string)
    requires ',' !in p
    ensures ',' !in " " + p
  {
    var q := " " + p;
    forall j | 0 <= j < |q|
      ensures q[j] != ','
    {
      if j > 0 {
        assert q[j] == p[j - 1];
      }
    }
  }

  /** The first ", " of the joined text: the first message, a comma, and the rest behind a space. */
  lemma {:induction false} JoinStep(parts: seq<string>)
    requires |parts| >= 2
    ensures JoinMessages(parts) == parts[0] + [','] + JoinMessages([" " + parts[1]] + parts[2..])
  {
    var tail := [parts[1]] + parts[2..];
    assert tail == parts[1..];
    var x := JoinMessages(tail);
    assert JoinMessages(parts) == parts[0] + ", " + x;
    JoinMessagesSpaced(parts[1], parts[2..]);
    CommaSpace(parts[0], x);
  }

  /** The separator ", " is a comma followed by a space. */
  lemma CommaSpace(a: string, b: string)
    ensures a + ", " + b == a + [','] + (" " + b)
  {
    var l := a + ", " + b;
    var r := a + [','] + (" " + b);
    assert |l| == |r|;
    forall i | 0 <= i < |l|
      ensures l[i] == r[i]
    {
      if i < |a| {
      } else if i < |a| + 2 {
      } else {
        assert l[i] == b[i - |a| - 2];
      }
    }
  }

  lemma SpacedCons(parts: seq<string>)
    requires |parts| >= 1
    ensures Spaced(parts) == [" " + parts[0]] + Spaced(parts[1..])
  {
  }

  /**
   * The joined text splits on ',' back into the messages, when none of
   * them contains a comma: the first as it was, each later one behind the
   * space that followed its comma.
   */
  lemma {:induction false} SplitMessages(parts: seq<string>)
    requires |parts| >= 1
    requires forall i :: 0 <= i < |parts| ==> ',' !in parts[i]
    ensures Split(JoinMessages(parts), ',') == [parts[0]] + Spaced(parts[1..])
    decreases |parts|
  {
    if |parts| == 1 {
      SplitNoSep(parts[0], ',');
    } else {
      var shifted := [" " + parts[1]] + parts[2..];
      SpaceNoComma(parts[1]);
      assert forall i :: 1 <= i < |shifted| ==> shifted[i] == parts[i + 1];
      SplitMessages(shifted);
      JoinStep(parts);
      SplitCons(parts[0], ',', JoinMessages(shifted));
      SpacedCons(parts[1..]);
      assert shifted[1..] == parts[1..][1..];
    }
  }

  /** One pass of the loop over the conv tokens: set the token's flag, or record it as unknown. */
  function ConvToken(o: Options, errs: seq<string>, tok: string): (out: (Options, seq<string>))
    ensures out.0 == o.(upperCase := o.upperCase || tok == UpperCaseFlag,
                        lowerCase := o.lowerCase || tok == LowerCaseFlag,
                        trimSpaces := o.trimSpaces || tok == TrimSpacesFlag)
    ensures out.1 == errs + if Known(tok) then [] else [UnknownFlagMessage + tok]
  {
    if tok == UpperCaseFlag then (o.(upperCase := true), errs)
    else if tok == LowerCaseFlag then (o.(lowerCase := true), errs)
    else if tok == TrimSpacesFlag then (o.(trimSpaces := true), errs)
    else (o, errs + [UnknownFlagMessage + tok])
  }

  /**
   * The loop over the conv tokens: a flag ends up set when it was set before
   * or some token names it, and the unknown tokens are reported in order.
   */
  function ApplyConv(o: Options, errs: seq<string>, toks: seq<string>): (out: (Options, seq<string>))
    ensures out.0 == o.(upperCase := o.upperCase || UpperCaseFlag in toks,
                        lowerCase := o.lowerCase || LowerCaseFlag in toks,
                        trimSpaces := o.trimSpaces || TrimSpacesFlag in toks)
    ensures out.1 == errs + UnknownMessages(toks)
    decreases |toks|
  {
    if |toks| == 0 then (o, errs)
    else
      var tok, rest := toks[0], toks[1..];
      var (o', errs') := ConvToken(o, errs, tok);
      var reported := if Known(tok) then [] else [UnknownFlagMessage + tok];
      FlagsOfCons(toks);
      assert UnknownMessages(toks) == reported + UnknownMessages(rest);
      var out := ApplyConv(o', errs', rest);
      assert out.1 == errs + reported + UnknownMessages(rest);
      out
  }

  /** A flag name is among the tokens when it is the first or among the others. */
  lemma FlagsOfCons(toks: seq<string>)
    requires |toks| > 0
    ensures UpperCaseFlag in toks <==> toks[0] == UpperCaseFlag || UpperCaseFlag in toks[1..]
    ensures LowerCaseFlag in toks <==> toks[0] == LowerCaseFlag || LowerCaseFlag in toks[1..]
    ensures TrimSpacesFlag in toks <==> toks[0] == TrimSpacesFlag || TrimSpacesFlag in toks[1..]
  {
    assert toks == [toks[0]] + toks[1..];
  }

  /**
   * The checks after `flag.Parse`: the options when no problem was found,
   * and otherwise every problem, joined by ", ".
   */
  function CheckOptions(flags: Flags, conv: string): (r: Result<Options, string>)
    ensures r.Success? <==> Problems(flags, conv) == []
    ensures r.Success? ==>
              r.value == Options(flags.from, flags.to, flags.blockSize, flags.offset, flags.limit,
                                 Requested(conv, UpperCaseFlag), Requested(conv, LowerCaseFlag),
                                 Requested(conv, TrimSpacesFlag))
    ensures r.Failure? ==> r.error == JoinMessages(Problems(flags, conv))
  {
    var start := Options(flags.from, flags.to, flags.blockSize, flags.offset, flags.limit, false, false, false);
    var (opts, unknown) := if |conv| != 0 then ApplyConv(start, [], Split(conv, ',')) else (start, []);
    assert unknown == if conv != "" then UnknownMessages(Split(conv, ',')) else [];
    assert opts.upperCase == Requested(conv, UpperCaseFlag) && opts.lowerCase == Requested(conv, LowerCaseFlag);
    var errs := unknown
      + (if opts.lowerCase && opts.upperCase then [ClashMessage] else [])
      + (if opts.blockSize == 0 then [ZeroBlockMessage] else []);
    assert errs == Problems(flags, conv);
    if |errs| == 0 then Success(opts) else Failure(JoinMessages(errs))
  }

  /** The options are accepted exactly when every token is known, the cases do not clash and the block size is not 0. */
  lemma Accepted(flags: Flags, conv: string)
    ensures CheckOptions(flags, conv).Success? <==>
              (conv == "" || AllKnown(Split(conv, ','))) &&
              !(Requested(conv, UpperCaseFlag) && Requested(conv, LowerCaseFlag)) &&
              flags.blockSize != 0
  {
    var toks := Split(conv, ',');
    assert conv != "" ==> (UnknownMessages(toks) == [] <==> AllKnown(toks));
  }

  /** An unknown-flag message of a comma-free token has no comma. */
  lemma {:induction false} UnknownMessagesNoComma(toks: seq<string>)
    requires forall j :: 0 <= j < |toks| ==> ',' !in toks[j]
    ensures forall i :: 0 <= i < |UnknownMessages(toks)| ==> ',' !in UnknownMessages(toks)[i]
    decreases |toks|
  {
    if |toks| > 0 {
      UnknownMessagesNoComma(toks[1..]);
      if !Known(toks[0]) {
        var m := UnknownFlagMessage + toks[0];
        assert forall j :: 0 <= j < |m| ==> m[j] != ',' by {
          assert forall j :: |UnknownFlagMessage| <= j < |m| ==> m[j] == toks[0][j - |UnknownFlagMessage|];
        }
      }
    }
  }

  /**
   * The error text lists every problem, in order: split on ',' it gives
   * back the first problem and then each later one behind a space.
   */
  lemma ErrorListsProblems(flags: Flags, conv: string)
    requires CheckOptions(flags, conv).Failure?
    ensures var ps := Problems(flags, conv);
      |ps| >= 1 && Split(CheckOptions(flags, conv).error, ',') == [ps[0]] + Spaced(ps[1..])
  {
    ProblemsNoComma(flags, conv);
    SplitMessages(Problems(flags, conv));
  }

  /** No problem message contains a comma. */
  lemma {:induction false} ProblemsNoComma(flags: Flags, conv: string)
    ensures var ps := Problems(flags, conv); forall i :: 0 <= i < |ps| ==> ',' !in ps[i]
  {
    var unknown := if conv != "" then UnknownMessages(Split(conv, ',')) else [];
    if conv != "" {
      UnknownMessagesNoComma(Split(conv, ','));
    }
    var clash: seq<string> := if Requested(conv, UpperCaseFlag) && Requested(conv, LowerCaseFlag) then [ClashMessage] else [];
    var zero: seq<string> := if flags.blockSize == 0 then [ZeroBlockMessage] else [];
    assert Problems(flags, conv) == unknown + clash + zero;
    FixedMessagesNoComma();
    assert forall i :: 0 <= i < |clash| ==> ',' !in clash[i];
    assert forall i :: 0 <= i < |zero| ==> ',' !in zero[i];
  }

  /** The two fixed messages contain no comma. */
  lemma {:induction false} FixedMessagesNoComma()
    ensures ',' !in ClashMessage && ',' !in ZeroBlockMessage
  {
  }

  /** An empty conv argument asks for nothing and is never an error, although it splits into one empty token. */
  lemma EmptyConv(flags: Flags)
    requires flags.blockSize != 0
    ensures Split("", ',') == [""] && !Known("")
    ensures CheckOptions(flags, "") ==
              Success(Options(flags.from, flags.to, flags.blockSize, flags.offset, flags.limit, false, false, false))
  {
  }

  /** Only a zero block size is refused: a negative one passes the checks. */
  lemma NegativeBlockSize(flags: Flags)
    requires flags.blockSize < 0
    ensures CheckOptions(flags, "").Success?
  {
  }

  /** Asking for both cases is refused, whatever else the arguments say. */
  lemma ClashRejected(flags: Flags, conv: string)
    requires Requested(conv, UpperCaseFlag) && Requested(conv, LowerCaseFlag)
    ensures CheckOptions(flags, conv).Failure?
    ensures ClashMessage in Problems(flags, conv)
  {
    Accepted(flags, conv);
  }

  /** A zero block size is refused, and its message comes last. */
  lemma ZeroBlockRejected(flags: Flags, conv: string)
    requires flags.blockSize == 0
    ensures CheckOptions(flags, conv).Failure?
    ensures var ps := Problems(flags, conv); |ps| >= 1 && ps[|ps| - 1] == ZeroBlockMessage
  {
    Accepted(flags, conv);
  }

  /**
   * An empty token, as a doubled or trailing comma makes, is reported as an
   * unknown flag.
   */
  lemma EmptyTokenRejected(flags: Flags, conv: string)
    requires conv != "" && "" in Split(conv, ',')
    ensures CheckOptions(flags, conv).Failure?
  {
    Accepted(flags, conv);
    assert !Known("");
  }
}
