/**
 * homework03's converter state and its whitespace trimmer. `Trim` is fed the
 * input chunk by chunk. It drops leading whitespace until the first
 * non-space arrives, and it holds back a run of trailing whitespace until
 * something other than whitespace follows it. Over the whole stream the
 * output is the input with its leading and trailing whitespace removed.
 *
 * A chunk is a sequence of runes here; see the README for what that leaves out.
 */
module Conv {
  import opened Options

  /** `bufCase`: which case the converter maps letters to. */
  datatype BufCase = DefaultCase | UpperCase | LowerCase

  /** `conv.Conv`. */
  datatype Conv = Conv(
    bc: BufCase,
    invalidBytes: string,
    trimmedLeft: bool,
    trimmedRight: bool,
    rightSpaces: string)

  /** `NewConv`: upper case wins over lower case, and trimming is on exactly when asked for. */
  function NewConv(opts: Options): (c: Conv)
    ensures opts.upperCase ==> c.bc == UpperCase
    ensures !opts.upperCase && opts.lowerCase ==> c.bc == LowerCase
    ensures !opts.upperCase && !opts.lowerCase ==> c.bc == DefaultCase
    ensures c.trimmedLeft == c.trimmedRight == !opts.trimSpaces
    ensures c.invalidBytes == [] && c.rightSpaces == []
  {
    var bc := if opts.upperCase then UpperCase else if opts.lowerCase then LowerCase else DefaultCase;
    Conv(bc, [], !opts.trimSpaces, !opts.trimSpaces, [])
  }

  /** After the option checks, the case mode is exactly what the conv argument asked for. */
  lemma CheckedCaseMode(flags: Flags, conv: string)
    requires CheckOptions(flags, conv).Success?
    ensures var c := NewConv(CheckOptions(flags, conv).value);
      (c.bc == UpperCase <==> Requested(conv, UpperCaseFlag)) &&
      (c.bc == LowerCase <==> Requested(conv, LowerCaseFlag)) &&
      (c.bc == DefaultCase <==> !Requested(conv, UpperCaseFlag) && !Requested(conv, LowerCaseFlag)) &&
      (c.trimmedLeft <==> !Requested(conv, TrimSpacesFlag))
  {
    Accepted(flags, conv);
  }

  // ---------------------------------------------------------------------
  // Whitespace
  // ---------------------------------------------------------------------

  /**
   * `unicode.IsSpace`: the Latin-1 spaces '\t', '\n', '\v', '\f', '\r', ' ',
   * U+0085 and U+00A0, and above Latin-1 the White_Space runes.
   */
  predicate IsSpace(c: char) {
    var n := c as int;
    (0x09 <= n <= 0x0D) || n == 0x20 || n == 0x85 || n == 0xA0 ||
    n == 0x1680 || (0x2000 <= n <= 0x200A) || n == 0x2028 || n == 0x2029 ||
    n == 0x202F || n == 0x205F || n == 0x3000
  }

  predicate AllSpace(s: string) {
    forall i :: 0 <= i < |s| ==> IsSpace(s[i])
  }

  /** `leftSpacesAmount`: the length of the longest all-space prefix. */
  function LeftSpacesAmount(buf: string): (n: nat)
    ensures n <= |buf| && AllSpace(buf[..n])
    ensures n < |buf| ==> !IsSpace(buf[n])
  {
    if |buf| == 0 || !IsSpace(buf[0]) then 0
    else
      var n := 1 + LeftSpacesAmount(buf[1..]);
      assert forall i :: 1 <= i < n ==> buf[..n][i] == buf[1..][..n - 1][i - 1];
      n
  }

  /**
   * `rightSpacesAmount`: the length of the longest all-space suffix. Go scans
   * left to right, adding one per space and resetting to 0 at anything else;
   * the count after a prefix and one more rune is what this recurrence says.
   */
  function RightSpacesAmount(buf: string): (n: nat)
    ensures n <= |buf| && AllSpace(buf[|buf| - n..])
    ensures n < |buf| ==> !IsSpace(buf[|buf| - n - 1])
  {
    if |buf| == 0 || !IsSpace(buf[|buf| - 1]) then 0
    else
      var init := buf[..|buf| - 1];
      var n := RightSpacesAmount(init) + 1;
      SpaceSuffixGrows(buf, n);
      n
  }

  /** A space after an all-space suffix of the rest makes a suffix one longer. */
  lemma SpaceSuffixGrows(buf: string, n: nat)
    requires 0 < n <= |buf| && IsSpace(buf[|buf| - 1])
    requires AllSpace(buf[..|buf| - 1][|buf| - n..])
    ensures AllSpace(buf[|buf| - n..])
  {
    var suffix, rest := buf[|buf| - n..], buf[..|buf| - 1][|buf| - n..];
    forall i | 0 <= i < |suffix|
      ensures IsSpace(suffix[i])
    {
      if i < n - 1 {
        assert suffix[i] == rest[i];
      }
    }
  }

  /** Any count with the two properties above is the left amount. */
  lemma {:induction false} LeftUnique(s: string, m: nat)
    requires m <= |s| && AllSpace(s[..m]) && (m < |s| ==> !IsSpace(s[m]))
    ensures LeftSpacesAmount(s) == m
  {
    if m > 0 {
      assert s[..m][0] == s[0];
      assert s[1..][..m - 1] == s[..m][1..];
      LeftUnique(s[1..], m - 1);
    }
  }

  /** Any count with the two properties above is the right amount. */
  lemma {:induction false} RightUnique(s: string, m: nat)
    requires m <= |s| && AllSpace(s[|s| - m..]) && (m < |s| ==> !IsSpace(s[|s| - m - 1]))
    ensures RightSpacesAmount(s) == m
  {
    if m > 0 {
      var init := s[..|s| - 1];
      var tail := s[|s| - m..];
      assert tail[m - 1] == s[|s| - 1];
      assert init[|init| - (m - 1)..] == tail[..m - 1];
      assert m - 1 < |init| ==> init[|init| - (m - 1) - 1] == s[|s| - m - 1];
      RightUnique(init, m - 1);
      assert RightSpacesAmount(s) == RightSpacesAmount(init) + 1;
    }
  }

  /** A buffer is all whitespace exactly when either amount covers all of it. */
  lemma AmountsCoverAll(s: string)
    ensures LeftSpacesAmount(s) == |s| <==> AllSpace(s)
    ensures RightSpacesAmount(s) == |s| <==> AllSpace(s)
  {
    assert s[..|s|] == s && s[|s| - |s|..] == s;
  }

  /** `s` without its leading whitespace. */
  function TrimLeft(s: string): (t: string)
    ensures t == [] <==> AllSpace(s)
  {
    AmountsCoverAll(s);
    s[LeftSpacesAmount(s)..]
  }

  lemma AllSpaceAppend(a: string, b: string)
    ensures AllSpace(a + b) <==> AllSpace(a) && AllSpace(b)
  {
    if AllSpace(a + b) {
      assert forall i :: 0 <= i < |a| ==> a[i] == (a + b)[i];
      assert forall i :: 0 <= i < |b| ==> b[i] == (a + b)[|a| + i];
    }
  }

  /** `s` without its leading and trailing whitespace, as `strings.TrimSpace` gives it. */
  function TrimSpace(s: string): (t: string)
    ensures t == [] || (!IsSpace(t[0]) && !IsSpace(t[|t| - 1]))
  {
    var l := TrimLeft(s);
    var t := l[..|l| - RightSpacesAmount(l)];
    assert |t| > 0 ==> t[0] == l[0] && !IsSpace(s[LeftSpacesAmount(s)]);
    t
  }

  /** Leading whitespace of a concatenation: it runs into `b` only when `a` is all whitespace. */
  lemma {:induction false} TrimLeftAppend(a: string, b: string)
    ensures AllSpace(a) ==> TrimLeft(a + b) == TrimLeft(b)
    ensures !AllSpace(a) ==> TrimLeft(a + b) == TrimLeft(a) + b
  {
    if AllSpace(a) {
      TrimLeftIntoB(a, b);
    } else {
      TrimLeftWithinA(a, b);
    }
  }

  /** An all-space `a` is trimmed away together with the leading run of `b`. */
  lemma {:induction false} TrimLeftIntoB(a: string, b: string)
    requires AllSpace(a)
    ensures TrimLeft(a + b) == TrimLeft(b)
  {
    var s := a + b;
    var m := |a| + LeftSpacesAmount(b);
    assert s[..m] == a + b[..LeftSpacesAmount(b)];
    assert m < |s| ==> s[m] == b[LeftSpacesAmount(b)];
    LeftUnique(s, m);
    assert s[m..] == b[LeftSpacesAmount(b)..];
  }

  /** A non-space in `a` stops the leading run inside `a`, and `b` stays whole. */
  lemma {:induction false} TrimLeftWithinA(a: string, b: string)
    requires !AllSpace(a)
    ensures TrimLeft(a + b) == TrimLeft(a) + b
  {
    var s := a + b;
    var m := LeftSpacesAmount(a);
    AmountsCoverAll(a);
    assert s[..m] == a[..m];
    assert s[m] == a[m];
    LeftUnique(s, m);
    assert s[m..] == a[m..] + b;
  }

  /** A run of whitespace after a non-space end is exactly the right amount. */
  lemma {:induction false} RightOfAppend(o: string, r: string)
    requires AllSpace(r) && (o == [] || !IsSpace(o[|o| - 1]))
    ensures RightSpacesAmount(o + r) == |r|
  {
    AppendEdge(o, r);
    RightUnique(o + r, |r|);
  }

  /** The last `|r|` runes of `o + r` are all spaces, and the rune before them is not. */
  lemma AppendEdge(o: string, r: string)
    requires AllSpace(r) && (o == [] || !IsSpace(o[|o| - 1]))
    ensures var s := o + r; AllSpace(s[|s| - |r|..]) && (|r| < |s| ==> !IsSpace(s[|s| - |r| - 1]))
  {
    var s := o + r;
    assert s[|s| - |r|..] == r;
    if |o| > 0 {
      assert s[|s| - |r| - 1] == o[|o| - 1];
    }
  }

  // ---------------------------------------------------------------------
  // Trim
  // ---------------------------------------------------------------------

  /**
   * The right-hand half of `Trim`: the held-back whitespace and the chunk are
   * split into what is passed on and the new held-back run, which is the
   * chunk's trailing whitespace when the chunk has anything else.
   */
  function HoldBack(held: string, b: string): (out: (string, string))
    ensures out.0 + out.1 == held + b
    ensures AllSpace(held) ==> AllSpace(out.1)
    ensures AllSpace(b) ==> out.0 == []
    ensures !AllSpace(b) ==> |out.0| > 0 && !IsSpace(out.0[|out.0| - 1])
  {
    var k := |b| - RightSpacesAmount(b);
    if k != 0 then
      HoldBackCut(held, b, k);
      (held + b[..k], b[k..])
    else
      HoldBackAll(held, b);
      ([], held + b)
  }

  /** A chunk with a non-space is cut after its last non-space, at `k`. */
  lemma {:induction false} HoldBackCut(held: string, b: string, k: nat)
    requires k == |b| - RightSpacesAmount(b) && k != 0
    ensures (held + b[..k]) + b[k..] == held + b
    ensures AllSpace(b[k..]) && !AllSpace(b)
    ensures |held + b[..k]| > 0 && !IsSpace((held + b[..k])[|held + b[..k]| - 1])
  {
    AmountsCoverAll(b);
    CutBefore(held, b, k);
  }

  /** An all-space chunk joins the held-back run whole. */
  lemma {:induction false} HoldBackAll(held: string, b: string)
    requires RightSpacesAmount(b) == |b|
    ensures AllSpace(b)
    ensures AllSpace(held) ==> AllSpace(held + b)
  {
    AmountsCoverAll(b);
    AllSpaceAppend(held, b);
  }

  /** Cutting `b` at `k` after a non-space: the two parts make up `held + b`, and the first ends in that non-space. */
  lemma {:induction false} CutBefore(held: string, b: string, k: nat)
    requires 0 < k <= |b| && !IsSpace(b[k - 1])
    ensures (held + b[..k]) + b[k..] == held + b
    ensures !IsSpace((held + b[..k])[|held + b[..k]| - 1])
  {
    assert b == b[..k] + b[k..];
    assert (held + b[..k])[|held + b[..k]| - 1] == b[k - 1];
  }

  /** `Conv.Trim` on one chunk: the new state and the bytes to pass on. */
  function Trim(c: Conv, buf: string): (out: (Conv, string))
    ensures c.trimmedLeft && c.trimmedRight ==> out == (c, buf)
    ensures out.0.trimmedRight == c.trimmedRight && out.0.bc == c.bc
    ensures c.trimmedLeft ==> out.0.trimmedLeft
    ensures AllSpace(c.rightSpaces) ==> AllSpace(out.0.rightSpaces)
    ensures !c.trimmedRight && AllSpace(buf) ==> out.1 == []
    ensures c.trimmedLeft && !c.trimmedRight ==> out.1 + out.0.rightSpaces == c.rightSpaces + buf
  {
    var b := if !c.trimmedLeft then TrimLeft(buf) else buf;
    var left := c.trimmedLeft || |b| != 0;
    assert AllSpace(buf) ==> AllSpace(b) by {
      if !c.trimmedLeft && AllSpace(buf) {
        assert b == [];
      }
    }
    if !c.trimmedRight then
      var (passed, held) := HoldBack(c.rightSpaces, b);
      (c.(trimmedLeft := left, rightSpaces := held), passed)
    else
      (c.(trimmedLeft := left), b)
  }

  /**
   * What holds between chunks when trimming is on: the output so far and the
   * held-back whitespace make up the input so far without its leading
   * whitespace; the output never ends in whitespace; and the left edge
   * counts as trimmed once a non-space has arrived.
   */
  predicate TrimInv(c: Conv, outs: string, ins: string) {
    !c.trimmedRight &&
    AllSpace(c.rightSpaces) &&
    outs + c.rightSpaces == TrimLeft(ins) &&
    (outs == [] || !IsSpace(outs[|outs| - 1])) &&
    (c.trimmedLeft <==> !AllSpace(ins))
  }

  /** A fresh trimming converter has seen nothing and holds nothing. */
  lemma NewConvInv(opts: Options)
    requires opts.trimSpaces
    ensures TrimInv(NewConv(opts), [], [])
  {
    var c := NewConv(opts);
    assert c.rightSpaces == [] && !c.trimmedRight && !c.trimmedLeft;
    assert TrimLeft([]) == [];
  }

  /** One more chunk keeps the invariant. */
  lemma TrimStep(c: Conv, outs: string, ins: string, buf: string)
    requires TrimInv(c, outs, ins)
    ensures var (c', out) := Trim(c, buf); TrimInv(c', outs + out, ins + buf)
  {
    var (c', out) := Trim(c, buf);
    StepContent(c, outs, ins, buf);
    StepEdges(c, outs, ins, buf);
  }

  /** The input so far, less its leading whitespace, is still split between output and held-back run. */
  lemma StepContent(c: Conv, outs: string, ins: string, buf: string)
    requires TrimInv(c, outs, ins)
    ensures var (c', out) := Trim(c, buf); outs + out + c'.rightSpaces == TrimLeft(ins + buf)
  {
    var b := if !c.trimmedLeft then TrimLeft(buf) else buf;
    var (c', out) := Trim(c, buf);
    assert out + c'.rightSpaces == c.rightSpaces + b;
    var whole := TrimLeft(ins + buf);
    assert whole == outs + c.rightSpaces + b by {
      TrimLeftAppend(ins, buf);
      if !c.trimmedLeft {
        assert outs + c.rightSpaces == [];
      }
    }
    Regroup(outs, c.rightSpaces, b, out, c'.rightSpaces);
  }

  lemma Regroup(a: string, r: string, b: string, p: string, h: string)
    requires p + h == r + b
    ensures a + p + h == a + r + b
  {
    assert a + p + h == a + (p + h);
  }

  /** The output still ends in a non-space, and the left edge is trimmed once a non-space has arrived. */
  lemma {:induction false} StepEdges(c: Conv, outs: string, ins: string, buf: string)
    requires TrimInv(c, outs, ins)
    ensures var (c', out) := Trim(c, buf);
      (outs + out == [] || !IsSpace((outs + out)[|outs + out| - 1])) &&
      (c'.trimmedLeft <==> !AllSpace(ins + buf))
  {
    var b := if !c.trimmedLeft then TrimLeft(buf) else buf;
    var (passed, held) := HoldBack(c.rightSpaces, b);
    AllSpaceAppend(ins, buf);
    if !c.trimmedLeft {
      assert outs == [];
    }
  }

  /** `s` joined together, as the stream of chunks delivers it. */
  function Concat(ss: seq<string>): (s: string)
    ensures |ss| == 1 ==> s == ss[0]
  {
    if |ss| == 0 then [] else Concat(ss[..|ss| - 1]) + ss[|ss| - 1]
  }

  /** `Trim` applied to each chunk in turn: the last state and everything passed on. */
  function TrimStream(c: Conv, chunks: seq<string>): (Conv, string) {
    if |chunks| == 0 then (c, [])
    else
      var (c', outs) := TrimStream(c, chunks[..|chunks| - 1]);
      var (c'', out) := Trim(c', chunks[|chunks| - 1]);
      (c'', outs + out)
  }

  /** The invariant holds after any number of chunks. */
  lemma {:induction false} StreamInv(opts: Options, chunks: seq<string>)
    requires opts.trimSpaces
    ensures var (c, outs) := TrimStream(NewConv(opts), chunks); TrimInv(c, outs, Concat(chunks))
  {
    if |chunks| == 0 {
      NewConvInv(opts);
    } else {
      var init := chunks[..|chunks| - 1];
      StreamInv(opts, init);
      var (c, outs) := TrimStream(NewConv(opts), init);
      TrimStep(c, outs, Concat(init), chunks[|chunks| - 1]);
    }
  }

  /**
   * With trimming on, whatever the chunking, what has been passed on is the
   * input so far with its leading and trailing whitespace removed; the
   * trailing run is still held back.
   */
  lemma StreamIsTrimSpace(opts: Options, chunks: seq<string>)
    requires opts.trimSpaces
    ensures var (c, outs) := TrimStream(NewConv(opts), chunks);
      outs == TrimSpace(Concat(chunks)) && outs + c.rightSpaces == TrimLeft(Concat(chunks))
  {
    StreamInv(opts, chunks);
    var (c, outs) := TrimStream(NewConv(opts), chunks);
    InvIsTrimSpace(c, outs, Concat(chunks));
  }

  /** Between chunks, what has been passed on is the input so far with both edges trimmed. */
  lemma InvIsTrimSpace(c: Conv, outs: string, ins: string)
    requires TrimInv(c, outs, ins)
    ensures outs == TrimSpace(ins)
  {
    var l := TrimLeft(ins);
    RightOfAppend(outs, c.rightSpaces);
    assert l[..|l| - |c.rightSpaces|] == outs;
  }

  /** With trimming off, every chunk passes through unchanged. */
  lemma {:induction false} TrimOff(opts: Options, chunks: seq<string>)
    requires !opts.trimSpaces
    ensures TrimStream(NewConv(opts), chunks) == (NewConv(opts), Concat(chunks))
  {
    if |chunks| > 0 {
      TrimOff(opts, chunks[..|chunks| - 1]);
    }
  }
}
