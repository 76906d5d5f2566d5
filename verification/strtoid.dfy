/**
 * homework_extra's `strToID`, which turns the `:id` path parameter of the
 * HTTP server into an int64 id, and the property its fuzz test asks of it:
 * either the id is -1 and there is an error, or the id is non-negative and
 * there is none.
 */
module HttpGin {
  import opened Wrappers
  import opened GoStrings

  /** What `strToID` returns: the id, and whether the error is non-nil. */
  datatype Parsed = Parsed(id: int, failed: bool)

  /** `strToID` as written: `strconv.Atoi`, with -1 in place of the id on error. */
  function StrToID(s: string): (r: Parsed)
    ensures r.failed <==> Atoi(s).None?
    ensures r.failed ==> r.id == -1
    ensures !r.failed ==> r.id == Atoi(s).value && InInt64(r.id)
  {
    match Atoi(s)
    case None => Parsed(-1, true)
    case Some(n) => Parsed(n, false)
  }

  /** The fuzz test's check on a result. */
  predicate FuzzOracle(r: Parsed) {
    (r.id == -1 && r.failed) || (r.id >= 0 && !r.failed)
  }

  /** Every id that `strconv.Itoa` prints comes back unchanged. */
  lemma StrToIDItoa(n: int)
    requires InInt64(n)
    ensures StrToID(Itoa(n)) == Parsed(n, false)
  {
    AtoiItoa(n);
  }

  /** The fuzz test's seed corpus passes the check. */
  lemma {:induction false} FuzzSeeds()
    ensures StrToID("0") == Parsed(0, false) && FuzzOracle(StrToID("0"))
    ensures StrToID("2") == Parsed(2, false) && FuzzOracle(StrToID("2"))
    ensures StrToID("12") == Parsed(12, false) && FuzzOracle(StrToID("12"))
    ensures StrToID("6") == Parsed(6, false) && FuzzOracle(StrToID("6"))
    ensures StrToID("abc") == Parsed(-1, true) && FuzzOracle(StrToID("abc"))
  {
    assert "12"[..1] == "1";
    assert !IsDigit('a');
  }

  /** A negative number is parsed without error, so the fuzz check fails on "-5". */
  lemma MinusFiveBreaksOracle()
    ensures StrToID("-5") == Parsed(-5, false)
    ensures !FuzzOracle(StrToID("-5"))
  {
    assert Itoa(-5) == "-5";
    StrToIDItoa(-5);
  }

  /** The as-written function fails the check exactly on the negative numbers it accepts. */
  lemma OracleFailsOnNegatives(s: string)
    ensures !FuzzOracle(StrToID(s)) <==> Atoi(s).Some? && Atoi(s).value < 0
  {
  }

  /** `strToID` refusing negative numbers, as the fuzz check expects. */
  function StrToIDNonNegative(s: string): (r: Parsed)
    ensures FuzzOracle(r)
    ensures !r.failed <==> Atoi(s).Some? && Atoi(s).value >= 0
    ensures !r.failed ==> r == StrToID(s)
  {
    match Atoi(s)
    case Some(n) => if n >= 0 then Parsed(n, false) else Parsed(-1, true)
    case None => Parsed(-1, true)
  }

  /** The corrected function still reads back every non-negative id it could be handed. */
  lemma NonNegativeItoa(n: int)
    requires 0 <= n <= MaxInt64
    ensures StrToIDNonNegative(Itoa(n)) == Parsed(n, false)
    ensures StrToIDNonNegative(Itoa(-n - 1)) == Parsed(-1, true)
  {
    AtoiItoa(n);
    AtoiItoa(-n - 1);
  }
}
