/** Decimal text: strconv.Itoa and the unsigned parser of the collectors. */
module Decimal {

  const MAX_UINT64: nat := 0xFFFF_FFFF_FFFF_FFFF

  predicate IsDigit(c: char) { '0' <= c <= '9' }

  predicate AllDigits(s: string) { forall i :: 0 <= i < |s| ==> IsDigit(s[i]) }

  function Digits(n: nat): (s: string)
    ensures s != "" && AllDigits(s)
  {
    if n < 10 then [('0' as int + n) as char] else Digits(n / 10) + [('0' as int + n % 10) as char]
  }

  /** strconv.Itoa */
  function Itoa(n: int): (s: string)
    ensures s != "" && forall i :: 0 <= i < |s| ==> s[i] == '-' || IsDigit(s[i])
  {
    if n < 0 then "-" + Digits(-n) else Digits(n)
  }

  function Value(s: string): nat
    requires AllDigits(s)
  {
    if s == "" then 0 else 10 * Value(s[..|s| - 1]) + (s[|s| - 1] as int - '0' as int)
  }

  /** How many characters the parser reads before the first that is no digit. */
  function DigitCount(s: string): (n: nat)
    ensures n <= |s| && AllDigits(s[..n]) && (n < |s| ==> !IsDigit(s[n]))
  {
    if s == "" || !IsDigit(s[0]) then 0
    else
      assert s[..1 + DigitCount(s[1..])] == [s[0]] + s[1..][..DigitCount(s[1..])];
      1 + DigitCount(s[1..])
  }

  /** strconv.ParseUint(s, 10, 64) with the error dropped.  Characters are read from the left, so
      digits that overflow give the maximum even when a bad character follows; otherwise a bad
      character, or none at all, gives 0. */
  function ParseUint64(s: string): (n: nat)
    ensures n <= MAX_UINT64
  {
    var digits := s[..DigitCount(s)];
    if Value(digits) > MAX_UINT64 then MAX_UINT64 else if s == "" || |digits| < |s| then 0 else Value(digits)
  }

  const MAX_INT64: int := 0x7FFF_FFFF_FFFF_FFFF

  /** strconv.Atoi with the error dropped: a sign, then ParseUint, then the nearest bound. */
  function ParseInt64(s: string): (n: int)
    ensures -MAX_INT64 - 1 <= n <= MAX_INT64
  {
    var signed := s != "" && (s[0] == '+' || s[0] == '-');
    var n: int := ParseUint64(if signed then s[1..] else s);
    if signed && s[0] == '-' then (if n > MAX_INT64 + 1 then -MAX_INT64 - 1 else -n)
    else if n > MAX_INT64 then MAX_INT64
    else n
  }

  lemma {:induction false} DigitsReadBack(n: nat)
    ensures Value(Digits(n)) == n
  {
    if n < 10 {
      var c := ('0' as int + n) as char;
      assert [c][..0] == "";
      assert Digits(n) == [c];
    } else {
      DigitsReadBack(n / 10);
      assert Digits(n)[..|Digits(n)| - 1] == Digits(n / 10);
    }
  }

  /** s is the decimal notation of n: digits without a leading zero, after a minus sign if n is
      negative. */
  predicate Denotes(s: string, n: int) {
    if n < 0 then s != "" && s[0] == '-' && IsNumeral(s[1..], -n) else IsNumeral(s, n)
  }

  predicate IsNumeral(s: string, n: nat) {
    s != "" && AllDigits(s) && (|s| > 1 ==> s[0] != '0') && Value(s) == n
  }

  /** Every number has one numeral, and Digits prints it. */
  lemma {:induction false} DigitsIff(n: nat, s: string)
    ensures IsNumeral(s, n) <==> s == Digits(n)
  {
    DigitsReadBack(n);
    if s != "" && AllDigits(s) {
      var init, last := s[..|s| - 1], s[|s| - 1];
      assert IsDigit(last) && AllDigits(init);
      assert s == init + [last];
      assert Value(s) == 10 * Value(init) + (last as int - '0' as int);
      if init == "" {
        assert s == [last];
      } else if n >= 10 {
        DigitsIff(n / 10, init);
      } else if IsNumeral(s, n) {
        ValueOfLeading(init);
      }
    }
    if n >= 10 {
      DigitsIff(n / 10, Digits(n / 10));
    }
  }

  lemma {:induction false} ValueOfLeading(s: string)
    requires s != "" && AllDigits(s) && s[0] != '0'
    ensures Value(s) > 0
  {
    if |s| > 1 {
      ValueOfLeading(s[..|s| - 1]);
    }
  }

  /** What Itoa prints is the decimal notation of its argument, and nothing else is. */
  lemma ItoaIff(n: int, s: string)
    ensures Denotes(s, n) <==> s == Itoa(n)
  {
    if n < 0 {
      if s != "" && s[0] == '-' {
        DigitsIff(-n, s[1..]);
        assert s == "-" + s[1..];
      }
      assert Itoa(n)[1..] == Digits(-n);
    } else {
      DigitsIff(n, s);
    }
  }

  lemma ParsePrinted(n: nat)
    requires n <= MAX_UINT64
    ensures ParseUint64(Digits(n)) == n
  {
    DigitsReadBack(n);
    CountedUpTo(Digits(n), "");
    assert Digits(n) + "" == Digits(n);
    assert Digits(n)[..|Digits(n)|] == Digits(n);
  }

  lemma ParsePrintedInt(n: nat)
    requires n <= MAX_INT64
    ensures ParseInt64(Digits(n)) == n
  {
    ParsePrinted(n);
    assert IsDigit(Digits(n)[0]);
  }

  /** Every 64-bit number is read back, with its sign. */
  lemma ParseItoa(n: int)
    requires -MAX_INT64 - 1 <= n <= MAX_INT64
    ensures ParseInt64(Itoa(n)) == n
  {
    if n < 0 {
      assert Itoa(n)[1..] == Digits(-n);
      ParsePrinted(-n);
    } else {
      ParsePrintedInt(n);
    }
  }

  /** A text with a bad character counts as 0, unless its leading digits already overflow; and so does
      the empty text. */
  lemma ParseOfNoNumber(digits: string, rest: string)
    requires AllDigits(digits) && (rest != "" ==> !IsDigit(rest[0])) && (digits == "" || rest != "")
    ensures ParseUint64(digits + rest) == if Value(digits) > MAX_UINT64 then MAX_UINT64 else 0
  {
    CountedUpTo(digits, rest);
    assert (digits + rest)[..|digits|] == digits;
  }

  lemma {:induction false} CountedUpTo(digits: string, rest: string)
    requires AllDigits(digits) && (rest != "" ==> !IsDigit(rest[0]))
    ensures DigitCount(digits + rest) == |digits|
  {
    if digits == "" {
      assert digits + rest == rest;
    } else {
      CountedUpTo(digits[1..], rest);
      assert (digits + rest)[1..] == digits[1..] + rest;
    }
  }
}
