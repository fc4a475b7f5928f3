/** Decimal text of machine integers: `to_string` and `str::parse` for i64 and u64. */
module Decimal {
  import opened Bytes

  const I64_MIN: int := -0x8000_0000_0000_0000
  const I64_MAX: int := 0x7FFF_FFFF_FFFF_FFFF
  const U64_MAX: nat := 0xFFFF_FFFF_FFFF_FFFF

  type i64 = n: int | I64_MIN <= n <= I64_MAX
  type u64 = n: int | 0 <= n <= U64_MAX

  const PLUS: byte := 43
  const MINUS: byte := 45

  predicate IsDigit(b: byte) {
    48 <= b <= 57
  }

  predicate AllDigits(s: Bytes) {
    forall i :: 0 <= i < |s| ==> IsDigit(s[i])
  }

  // --------------------------------------------------------------- printing

  /** Decimal digits of `n`, no leading zero. */
  function Digits(n: nat): (s: Bytes)
    ensures |s| > 0 && AllDigits(s)
  {
    if n < 10 then [48 + n] else Digits(n / 10) + [48 + n % 10]
  }

  function Print(n: int): (s: Bytes)
    ensures |s| > 0 && Ascii(s)
  {
    if n < 0 then [MINUS] + Digits(-n) else Digits(n)
  }

  // ---------------------------------------------------------------- parsing

  /** Value of a run of digits; nothing when some byte is not a digit. */
  function DigitsValue(s: Bytes): Option<nat> {
    if |s| == 0 then Some(0)
    else if !IsDigit(s[|s| - 1]) then None
    else match DigitsValue(s[..|s| - 1])
      case None => None
      case Some(high) => Some(10 * high + (s[|s| - 1] - 48))
  }

  /** `str::parse::<i64>`: one optional sign, at least one digit, no overflow. */
  function ParseI64(s: Bytes): Option<i64> {
    if |s| == 0 then None
    else if |s| == 1 && (s[0] == PLUS || s[0] == MINUS) then None
    else
      var negative := s[0] == MINUS;
      var digits := if s[0] == PLUS || s[0] == MINUS then s[1..] else s;
      match DigitsValue(digits)
      case None => None
      case Some(magnitude) =>
        var n: int := if negative then -(magnitude as int) else magnitude;
        if I64_MIN <= n <= I64_MAX then Some(n) else None
  }

  /** `str::parse::<u64>`: a leading `+` is allowed, a `-` is not. */
  function ParseU64(s: Bytes): Option<u64> {
    if |s| == 0 then None
    else if |s| == 1 && s[0] == PLUS then None
    else
      var digits := if s[0] == PLUS then s[1..] else s;
      match DigitsValue(digits)
      case None => None
      case Some(magnitude) => if magnitude <= U64_MAX then Some(magnitude) else None
  }

  // ----------------------------------------------------------------- lemmas

  lemma {:induction false} DigitsRoundTrip(n: nat)
    ensures DigitsValue(Digits(n)) == Some(n)
  {
    var s := Digits(n);
    if n < 10 {
      assert s[..|s| - 1] == [];
    } else {
      DigitsRoundTrip(n / 10);
      assert s[..|s| - 1] == Digits(n / 10);
    }
  }

  /** Printing then parsing gives every i64 back. */
  lemma PrintParseI64(n: i64)
    ensures ParseI64(Print(n)) == Some(n)
  {
    if n < 0 {
      var magnitude: int := -(n as int);
      DigitsRoundTrip(magnitude);
      assert Print(n)[1..] == Digits(magnitude);
    } else {
      DigitsRoundTrip(n);
      assert IsDigit(Digits(n)[0]);
    }
  }

  /** Printing then parsing gives every u64 back. */
  lemma PrintParseU64(n: u64)
    ensures ParseU64(Print(n)) == Some(n)
  {
    DigitsRoundTrip(n);
    assert IsDigit(Digits(n)[0]);
  }

  lemma {:induction false} DigitsShortest(s: Bytes)
    requires |s| > 0 && DigitsValue(s).Some?
    ensures |Digits(DigitsValue(s).value)| <= |s|
  {
    var n := DigitsValue(s).value;
    if |s| > 1 {
      DigitsShortest(s[..|s| - 1]);
    } else {
      assert DigitsValue(s[..0]) == Some(0);
    }
  }

  /** No accepted text of an i64 is shorter than the printed one: signs and leading zeros only add. */
  lemma PrintShortest(s: Bytes)
    requires ParseI64(s).Some?
    ensures |Print(ParseI64(s).value)| <= |s|
  {
    if s[0] == PLUS || s[0] == MINUS {
      DigitsShortest(s[1..]);
    } else {
      DigitsShortest(s);
    }
  }

  // ------------------------------------------------------ what numbers mean

  function Power10(n: nat): nat {
    if n == 0 then 1 else 10 * Power10(n - 1)
  }

  /** The number a row of digits stands for, place by place from the left. */
  function PlaceValue(s: Bytes): int {
    if |s| == 0 then 0 else (s[0] as int - 48) * Power10(|s| - 1) + PlaceValue(s[1..])
  }

  lemma {:induction false} PlaceSnoc(s: Bytes, d: byte)
    ensures PlaceValue(s + [d]) == 10 * PlaceValue(s) + (d - 48)
  {
    if |s| == 0 {
      assert (s + [d])[1..] == [];
      assert Power10(0) == 1;
    } else {
      PlaceSnoc(s[1..], d);
      assert (s + [d])[1..] == s[1..] + [d];
      var first: int := s[0];
      ShiftPlace(first - 48, |s| - 1);
    }
  }

  lemma ShiftPlace(digit: int, n: nat)
    ensures digit * Power10(n + 1) == 10 * (digit * Power10(n))
  {
  }

  /** A value is given to rows of the bytes 48 to 57, their decimal value, and to nothing else. */
  lemma {:induction false} DigitsMean(s: Bytes)
    ensures DigitsValue(s).Some? <==> forall i :: 0 <= i < |s| ==> 48 <= s[i] <= 57
    ensures DigitsValue(s).Some? ==> DigitsValue(s).value == PlaceValue(s)
  {
    if |s| == 0 {
    } else {
      var high, low := s[..|s| - 1], s[|s| - 1];
      assert s == high + [low];
      DigitsMean(high);
      PlaceSnoc(high, low);
    }
  }

  lemma {:induction false} DigitsAre(n: nat)
    ensures (forall i :: 0 <= i < |Digits(n)| ==> 48 <= Digits(n)[i] <= 57)
    ensures PlaceValue(Digits(n)) == n && (n > 0 ==> Digits(n)[0] != 48) && (n == 0 ==> Digits(n) == [48])
  {
    if n < 10 {
      PlaceSnoc([], 48 + n);
      assert [] + [48 + n] == Digits(n);
    } else {
      DigitsAre(n / 10);
      PlaceSnoc(Digits(n / 10), 48 + n % 10);
    }
  }

  /** The printed text of a number: its decimal digits without a leading zero, behind the byte 45 if it is negative. */
  lemma PrintMeans(n: int)
    ensures n >= 0 ==> (forall i :: 0 <= i < |Print(n)| ==> 48 <= Print(n)[i] <= 57) && PlaceValue(Print(n)) == n
    ensures n > 0 ==> Print(n)[0] != 48
    ensures n == 0 ==> Print(n) == [48]
    ensures n < 0 ==> Print(n) == [45] + Print(-n)
  {
    DigitsAre(if n < 0 then -n else n);
  }

  /** The digits of a signed text: what follows a leading 43 or 45. */
  function Unsigned(s: Bytes): Bytes {
    if |s| > 0 && (s[0] == 43 || s[0] == 45) then s[1..] else s
  }

  /** Exactly: an i64 is one sign or none and at least one digit, and fits. */
  lemma ParseI64Exactly(s: Bytes)
    ensures var digits := Unsigned(s);
            var n := if |s| > 0 && s[0] == 45 then -PlaceValue(digits) else PlaceValue(digits);
            ParseI64(s) == if |digits| > 0 && (forall i :: 0 <= i < |digits| ==> 48 <= digits[i] <= 57)
                              && -0x8000_0000_0000_0000 <= n <= 0x7FFF_FFFF_FFFF_FFFF then Some(n) else None
  {
    DigitsMean(Unsigned(s));
  }

  /** Exactly: a u64 is a plus or none and at least one digit, and fits. */
  lemma ParseU64Exactly(s: Bytes)
    ensures var digits := if |s| > 0 && s[0] == 43 then s[1..] else s;
            ParseU64(s) == if |digits| > 0 && (forall i :: 0 <= i < |digits| ==> 48 <= digits[i] <= 57)
                              && 0 <= PlaceValue(digits) <= 0xFFFF_FFFF_FFFF_FFFF then Some(PlaceValue(digits)) else None
  {
    DigitsMean(if |s| > 0 && s[0] == 43 then s[1..] else s);
  }
}
