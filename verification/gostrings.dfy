/**
 * The parts of Go's `strings` and `strconv` packages the homeworks rely on.
 * A Go string is a byte sequence; here it is a Dafny `string` whose
 * characters stand for its bytes, so `|s|` is Go's `len(s)`.
 */
module GoStrings {
  import opened Wrappers

  /** Bounds of Go's `int` on a 64-bit platform. */
  const MinInt64: int := -0x8000_0000_0000_0000
  const MaxInt64: int := 0x7fff_ffff_ffff_ffff

  predicate InInt64(n: int) {
    MinInt64 <= n <= MaxInt64
  }

  // ---------------------------------------------------------------------
  // strings.Split with a one-character separator, and its inverse Join
  // ---------------------------------------------------------------------

  /** Index of the first `sep` in `s`, or `|s|` when there is none. */
  function IndexOf(s: string, sep: char): (k: nat)
    ensures k <= |s|
    ensures forall j :: 0 <= j < k ==> s[j] != sep
    ensures k < |s| ==> s[k] == sep
  {
    if |s| == 0 then 0
    else if s[0] == sep then 0
    else 1 + IndexOf(s[1..], sep)
  }

  /**
   * `strings.Split(s, string(sep))`: the pieces between separators. Go
   * returns one piece more than there are separators, so the empty string
   * splits into `[""]`.
   */
  function Split(s: string, sep: char): (parts: seq<string>)
    ensures |parts| >= 1
    ensures forall i :: 0 <= i < |parts| ==> sep !in parts[i]
    decreases |s|
  {
    var k := IndexOf(s, sep);
    if k == |s| then [s]
    else [s[..k]] + Split(s[k + 1..], sep)
  }

  /** `strings.Join(parts, string(sep))`. */
  function Join(parts: seq<string>, sep: char): string
  {
    if |parts| == 0 then ""
    else if |parts| == 1 then parts[0]
    else parts[0] + [sep] + Join(parts[1..], sep)
  }

  lemma JoinCons(p: string, tail: seq<string>, sep: char)
    requires |tail| >= 1
    ensures Join([p] + tail, sep) == p + [sep] + Join(tail, sep)
  {
    assert ([p] + tail)[1..] == tail;
  }

  /** Joining the pieces of a split gives back the original string. */
  lemma {:induction false} JoinSplit(s: string, sep: char)
    ensures Join(Split(s, sep), sep) == s
    decreases |s|
  {
    var k := IndexOf(s, sep);
    if k < |s| {
      var rest := s[k + 1..];
      JoinSplit(rest, sep);
      JoinCons(s[..k], Split(rest, sep), sep);
      Around(s, k);
    }
  }

  /** A string is what comes before position `k`, the character there, and what comes after. */
  lemma Around(s: string, k: nat)
    requires k < |s|
    ensures s == s[..k] + [s[k]] + s[k + 1..]
  {
    var t := s[..k] + [s[k]] + s[k + 1..];
    assert |t| == |s|;
    forall i | 0 <= i < |s|
      ensures t[i] == s[i]
    {
      if i < k {
      } else if i == k {
      } else {
        assert t[i] == s[k + 1..][i - k - 1];
      }
    }
  }

  /** A string without the separator splits into itself alone, and only such a string does. */
  lemma SplitNoSep(s: string, sep: char)
    ensures sep !in s <==> |Split(s, sep)| == 1
    ensures sep !in s ==> Split(s, sep) == [s]
  {
    if sep in s {
      var k := IndexOf(s, sep);
      assert k < |s| by {
        var j :| 0 <= j < |s| && s[j] == sep;
      }
    }
  }

  /** A separator-free piece followed by the separator splits off as the first piece. */
  lemma SplitCons(p: string, sep: char, rest: string)
    requires sep !in p
    ensures Split(p + [sep] + rest, sep) == [p] + Split(rest, sep)
  {
    var s := p + [sep] + rest;
    IndexOfPrefix(p, sep, rest);
    assert s[..|p|] == p;
    assert s[|p| + 1..] == rest;
  }

  /** Splitting a join of separator-free pieces gives back the pieces. */
  lemma {:induction false} SplitJoin(parts: seq<string>, sep: char)
    requires |parts| >= 1
    requires forall i :: 0 <= i < |parts| ==> sep !in parts[i]
    ensures Split(Join(parts, sep), sep) == parts
    decreases |parts|
  {
    if |parts| > 1 {
      var p := parts[0];
      var rest := Join(parts[1..], sep);
      var s := p + [sep] + rest;
      IndexOfPrefix(p, sep, rest);
      assert s[..|p|] == p;
      assert s[|p| + 1..] == rest;
      SplitJoin(parts[1..], sep);
    } else {
      IndexOfNone(parts[0], sep);
    }
  }

  lemma {:induction false} IndexOfNone(s: string, sep: char)
    requires sep !in s
    ensures IndexOf(s, sep) == |s|
  {
  }

  lemma IndexOfPrefix(p: string, sep: char, rest: string)
    requires sep !in p
    ensures IndexOf(p + [sep] + rest, sep) == |p|
  {
    var s := p + [sep] + rest;
    assert s[|p|] == sep;
    assert forall j | 0 <= j < |p| :: s[j] == p[j] && p[j] != sep;
  }

  /** `strings.HasPrefix(s, prefix)`. */
  predicate HasPrefix(s: string, prefix: string) {
    |prefix| <= |s| && s[..|prefix|] == prefix
  }

  // ---------------------------------------------------------------------
  // strconv.Atoi and strconv.Itoa
  // ---------------------------------------------------------------------

  predicate IsDigit(c: char) {
    '0' <= c <= '9'
  }

  predicate AllDigits(s: string) {
    forall i :: 0 <= i < |s| ==> IsDigit(s[i])
  }

  function DigitValue(c: char): nat
    requires IsDigit(c)
  {
    (c as int) - ('0' as int)
  }

  /** The value of a string of decimal digits, most significant first. */
  function DecimalValue(ds: string): nat
    requires AllDigits(ds)
  {
    if |ds| == 0 then 0
    else 10 * DecimalValue(ds[..|ds| - 1]) + DigitValue(ds[|ds| - 1])
  }

  /**
   * `strconv.Atoi` on a 64-bit platform: an optional `+` or `-` followed
   * by at least one decimal digit, whose value fits a 64-bit `int`;
   * `None` stands for the non-nil error.
   */
  function Atoi(s: string): (r: Option<int>)
    ensures r.Some? ==> InInt64(r.value)
    ensures r.Some? ==> |s| >= 1
  {
    var negative := |s| > 0 && s[0] == '-';
    var body := if |s| > 0 && (s[0] == '-' || s[0] == '+') then s[1..] else s;
    if |body| == 0 || !AllDigits(body) then None
    else
      var n: int := if negative then -(DecimalValue(body) as int) else DecimalValue(body);
      if InInt64(n) then Some(n) else None
  }

  function DigitChar(d: nat): (c: char)
    requires d < 10
    ensures IsDigit(c) && DigitValue(c) == d
  {
    ('0' as int + d) as char
  }

  /** The decimal digits of `n`, without leading zeros. */
  function Digits(n: nat): (ds: string)
    ensures |ds| >= 1 && AllDigits(ds)
  {
    if n < 10 then [DigitChar(n)] else Digits(n / 10) + [DigitChar(n % 10)]
  }

  /** `strconv.Itoa(n)`. */
  function Itoa(n: int): string
  {
    if n < 0 then "-" + Digits(-n) else Digits(n)
  }

  lemma {:induction false} DecimalValueDigits(n: nat)
    ensures DecimalValue(Digits(n)) == n
  {
    if n >= 10 {
      var ds := Digits(n);
      assert ds[..|ds| - 1] == Digits(n / 10);
      DecimalValueDigits(n / 10);
    }
  }

  /** Atoi reads back what Itoa wrote, over the whole 64-bit range. */
  lemma AtoiItoa(n: int)
    requires InInt64(n)
    ensures Atoi(Itoa(n)) == Some(n)
  {
    if n < 0 {
      AtoiNegative(-n);
    } else {
      AtoiNonNegative(n);
    }
  }

  lemma AtoiNonNegative(m: nat)
    requires m <= MaxInt64
    ensures Atoi(Digits(m)) == Some(m)
  {
    var s := Digits(m);
    assert s[0] != '-' && s[0] != '+' by {
      assert IsDigit(s[0]);
    }
    DecimalValueDigits(m);
  }

  lemma AtoiNegative(m: nat)
    requires 0 < m <= -MinInt64
    ensures Atoi("-" + Digits(m)) == Some(-(m as int))
  {
    var s := "-" + Digits(m);
    assert s[1..] == Digits(m);
    DecimalValueDigits(m);
  }

  /** Atoi never succeeds on the empty string or on a lone sign. */
  lemma AtoiRejectsEmpty()
    ensures Atoi("") == None && Atoi("-") == None && Atoi("+") == None
  {
  }
}
