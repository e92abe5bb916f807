/** Decimal numbers in strings: utils/strings.go and the strconv calls beneath it. */
module Decimal {
  import opened Base

  const ZERO: byte := 48   // '0'
  const PLUS: byte := 43   // '+'
  const MINUS: byte := 45  // '-'
  const ITOA_COUNT: int := 1000

  predicate IsDigit(b: byte) {
    ZERO <= b <= ZERO + 9
  }

  predicate AllDigits(s: Bytes) {
    forall i :: 0 <= i < |s| ==> IsDigit(s[i])
  }

  function FormatUint(n: nat): (s: Bytes)
    ensures s != [] && AllDigits(s)
  {
    if n < 10 then [ZERO + n] else FormatUint(n / 10) + [ZERO + n % 10]
  }

  /** The number a string of digits denotes. */
  function Value(s: Bytes): nat
    requires AllDigits(s)
  {
    if s == [] then 0 else 10 * Value(s[..|s| - 1]) + (s[|s| - 1] - ZERO)
  }

  lemma {:induction false} FormatValue(n: nat)
    ensures Value(FormatUint(n)) == n
  {
    if n >= 10 {
      FormatValue(n / 10);
      assert FormatUint(n)[..|FormatUint(n)| - 1] == FormatUint(n / 10);
    }
  }

  lemma FormatInjective(a: nat, b: nat)
    requires FormatUint(a) == FormatUint(b)
    ensures a == b
  {
    FormatValue(a);
    FormatValue(b);
  }

  /** Digits without a leading zero, but for zero itself. */
  predicate IsCanonical(s: Bytes) {
    s != [] && AllDigits(s) && (|s| > 1 ==> s[0] != ZERO)
  }

  lemma {:induction false} FormatIsCanonical(n: nat)
    ensures IsCanonical(FormatUint(n))
    ensures n > 0 ==> FormatUint(n)[0] != ZERO
  {
    if n >= 10 {
      FormatIsCanonical(n / 10);
      assert FormatUint(n)[0] == FormatUint(n / 10)[0];
    }
  }

  lemma ValueStep(s: Bytes)
    requires |s| > 1 && AllDigits(s)
    ensures AllDigits(s[..|s| - 1]) && Value(s) == 10 * Value(s[..|s| - 1]) + (s[|s| - 1] - ZERO)
  {
  }

  lemma {:induction false} CanonicalIsPositive(s: Bytes)
    requires IsCanonical(s) && s[0] != ZERO
    ensures Value(s) > 0
  {
    if |s| > 1 {
      ValueStep(s);
      CanonicalIsPositive(s[..|s| - 1]);
    } else {
      assert s[..0] == [];
    }
  }

  /** Every canonical text is the text of its value. */
  lemma {:induction false} ValueFormat(s: Bytes)
    requires IsCanonical(s)
    ensures FormatUint(Value(s)) == s
  {
    var n := |s| - 1;
    if n == 0 {
      assert s[..0] == [];
    } else {
      ValueStep(s);
      CanonicalIsPositive(s[..n]);
      ValueFormat(s[..n]);
      assert s == s[..n] + [s[n]];
    }
  }

  /** `strconv.ParseUint(s, 10, 0)` on a 64-bit platform. */
  function ParseUint(s: Bytes): Option<nat> {
    if s == [] || !AllDigits(s) || Value(s) >= U64 then None else Some(Value(s))
  }

  lemma ParseFormat(n: nat)
    ensures ParseUint(FormatUint(n)) == if n < U64 then Some(n) else None
  {
    FormatValue(n);
  }

  function Itoa(i: int): Bytes {
    if i < 0 then [MINUS] + FormatUint(-i) else FormatUint(i)
  }

  /** `strconv.Atoi`: the value it returns and whether it returned no error. */
  datatype Parsed = Parsed(value: int, ok: bool)

  function Atoi(s: Bytes): Parsed {
    var signed := s != [] && (s[0] == PLUS || s[0] == MINUS);
    var digits := if signed then s[1..] else s;
    if digits == [] || !AllDigits(digits) then
      Parsed(0, false)
    else
      var v: int := if signed && s[0] == MINUS then 0 - Value(digits) else Value(digits);
      if v < -I64 then Parsed(-I64, false)
      else if v >= I64 then Parsed(I64 - 1, false)
      else Parsed(v, true)
  }

  /** Printing then parsing is the identity on every machine integer. */
  lemma AtoiItoa(i: int)
    requires -I64 <= i < I64
    ensures Atoi(Itoa(i)) == Parsed(i, true)
  {
    if i < 0 {
      FormatValue(-i);
      assert Itoa(i)[1..] == FormatUint(-i);
    } else {
      FormatValue(i);
      assert IsDigit(FormatUint(i)[0]);
    }
  }

  predicate IsTable(nums: seq<Bytes>) {
    |nums| == ITOA_COUNT && forall i :: 0 <= i < ITOA_COUNT ==> nums[i] == Itoa(i)
  }

  /** The table of small numbers that package initialisation fills. */
  method InitTable() returns (nums: seq<Bytes>)
    ensures IsTable(nums)
  {
    nums := [];
    for i := 0 to ITOA_COUNT
      invariant |nums| == i
      invariant forall k :: 0 <= k < i ==> nums[k] == Itoa(k)
    {
      nums := nums + [Itoa(i)];
    }
  }

  /** The table changes no answer, whatever the integer. */
  method ItoaQuick(nums: seq<Bytes>, i: int) returns (s: Bytes)
    requires IsTable(nums)
    ensures s == Itoa(i)
  {
    if i > 0 && i < ITOA_COUNT {
      return nums[i];
    }
    return Itoa(i);
  }

  /** `Acatui(str, b, n)`. */
  function Acatui(str: Bytes, b: Bytes, n: nat): Bytes {
    str + b + FormatUint(n)
  }
}
