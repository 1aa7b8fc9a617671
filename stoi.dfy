/**
 * `std::stoi(s, nullptr, base)` for the two bases the front end uses (10 for
 * the device number, 16 for a colour channel). It follows `strtol`: leading
 * white space is skipped, one sign is accepted, base 16 also accepts a `0x`
 * or `0X` prefix when a hex digit follows it, and the longest run of digits
 * is converted. No digit at all throws `std::invalid_argument`, a value
 * outside `int` throws `std::out_of_range`; both are `None` here.
 */
module StdStoi {
  import opened AuraTypes

  /** `isspace` in the C locale: space, tab, line feed, vertical tab, form feed, carriage return. */
  predicate IsSpace(c: char) {
    c == ' ' || '\t' <= c <= '\r'
  }

  /** The value of an alphanumeric character as a digit, 36 for any other character. */
  function DigitValue(c: char): (d: nat)
    ensures d <= 36
  {
    if '0' <= c <= '9' then c as int - '0' as int
    else if 'a' <= c <= 'z' then c as int - 'a' as int + 10
    else if 'A' <= c <= 'Z' then c as int - 'A' as int + 10
    else 36
  }

  predicate IsDigit(c: char, base: nat) {
    DigitValue(c) < base
  }

  /** The number of white-space characters at the front of `s`. */
  function LeadingSpaces(s: string): (n: nat)
    ensures n <= |s|
    ensures n < |s| ==> !IsSpace(s[n])
  {
    if s != [] && IsSpace(s[0]) then 1 + LeadingSpaces(s[1..]) else 0
  }

  /** The length of the longest prefix of `s` made of digits of `base`. */
  function DigitRun(s: string, base: nat): (n: nat)
    ensures n <= |s|
    ensures n < |s| ==> !IsDigit(s[n], base)
  {
    if s != [] && IsDigit(s[0], base) then 1 + DigitRun(s[1..], base) else 0
  }

  /** A string of digits only is one run. */
  lemma {:induction false} DigitRunOfDigits(s: string, base: nat)
    requires forall j :: 0 <= j < |s| ==> IsDigit(s[j], base)
    ensures DigitRun(s, base) == |s|
  {
    if s != [] {
      DigitRunOfDigits(s[1..], base);
    }
  }

  /** The value of a digit string, most significant digit first. */
  function DigitsValue(s: string, base: nat): nat {
    if s == [] then 0 else DigitsValue(s[..|s| - 1], base) * base + DigitValue(s[|s| - 1])
  }

  /** Where the digits start once the sign is gone: after a `0x` or `0X` prefix in base 16 when a hex digit follows it. */
  function DigitsStart(u: string, base: nat): string {
    if base == 16 && |u| >= 3 && u[0] == '0' && (u[1] == 'x' || u[1] == 'X') && IsDigit(u[2], 16) then u[2..] else u
  }

  /** The value of the longest run of digits at the front of `w`; `None` when there is no digit. */
  function Magnitude(w: string, base: nat): Option<nat> {
    var n := DigitRun(w, base);
    if n == 0 then None else Some(DigitsValue(w[..n], base))
  }

  /**
   * What `strtol` converts, before the range check; `None` when no digit is
   * found. A value needs a character other than white space, and a negative
   * value a minus sign as that first character.
   */
  function Strtol(s: string, base: nat): (r: Option<int>)
    ensures r.Some? ==> LeadingSpaces(s) < |s|
    ensures r.Some? && r.value < 0 ==> LeadingSpaces(s) < |s| && s[LeadingSpaces(s)] == '-'
  {
    var t := s[LeadingSpaces(s)..];
    var negative := |t| > 0 && t[0] == '-';
    var u := if |t| > 0 && (t[0] == '-' || t[0] == '+') then t[1..] else t;
    match Magnitude(DigitsStart(u, base), base)
    case None => None
    case Some(v) => Some(if negative then 0 - v else v)
  }

  /** A string made only of digits is its own longest run. */
  lemma MagnitudeOfDigits(d: string, base: nat)
    requires |d| > 0 && DigitRun(d, base) == |d|
    ensures Magnitude(d, base) == Some(DigitsValue(d, base))
  {
    assert d[..|d|] == d;
  }

  /**
   * `std::stoi`: the `strtol` value when it fits in an `int`, `None` where it
   * throws. A value needs a sign or a digit as the first character that is
   * not white space, the converse of `StoiRejectsNonNumeric`.
   */
  function Stoi(s: string, base: nat): (r: Option<Int32>)
    ensures r.Some? ==>
              LeadingSpaces(s) < |s|
              && (s[LeadingSpaces(s)] == '-' || s[LeadingSpaces(s)] == '+' || IsDigit(s[LeadingSpaces(s)], base))
  {
    match Strtol(s, base)
    case None => None
    case Some(v) => if Int32Min <= v <= Int32Max then Some(v) else None
  }

  /** A string whose first character is neither white space, a sign nor a digit converts to nothing. */
  lemma StoiRejectsNonNumeric(s: string, base: nat)
    requires base == 10 || base == 16
    requires |s| > 0 && !IsSpace(s[0]) && s[0] != '-' && s[0] != '+' && !IsDigit(s[0], base)
    ensures Stoi(s, base) == None
  {
    assert LeadingSpaces(s) == 0;
  }

  // Decimal formatting, the inverse of the base-10 conversion

  function DecimalDigit(d: nat): char
    requires d < 10
  {
    ('0' as int + d) as char
  }

  /** The digits of `n` in base 10, without leading zeros. */
  function DecimalDigits(n: nat): string
    decreases n
  {
    if n < 10 then [DecimalDigit(n)] else DecimalDigits(n / 10) + [DecimalDigit(n % 10)]
  }

  /** `std::to_string(n)`. */
  function Decimal(n: int): string {
    if n < 0 then "-" + DecimalDigits(-n) else DecimalDigits(n)
  }

  lemma DecimalDigitValue(d: nat)
    requires d < 10
    ensures IsDigit(DecimalDigit(d), 10) && DigitValue(DecimalDigit(d)) == d
    ensures !IsSpace(DecimalDigit(d)) && DecimalDigit(d) != '-' && DecimalDigit(d) != '+'
  {
  }

  lemma {:induction false} DecimalDigitsValue(n: nat)
    decreases n
    ensures |DecimalDigits(n)| > 0
    ensures forall j :: 0 <= j < |DecimalDigits(n)| ==> IsDigit(DecimalDigits(n)[j], 10)
    ensures DigitRun(DecimalDigits(n), 10) == |DecimalDigits(n)|
    ensures DigitsValue(DecimalDigits(n), 10) == n
  {
    var s := DecimalDigits(n);
    if n < 10 {
      DecimalDigitValue(n);
      assert s == [DecimalDigit(n)];
      assert s[..|s| - 1] == [];
      DigitRunOfDigits(s, 10);
    } else {
      DecimalDigitsValue(n / 10);
      DecimalDigitValue(n % 10);
      var p := DecimalDigits(n / 10);
      assert s == p + [DecimalDigit(n % 10)];
      assert s[..|s| - 1] == p;
      forall j | 0 <= j < |s|
        ensures IsDigit(s[j], 10)
      {
        if j < |p| {
          assert s[j] == p[j];
        }
      }
      DigitRunOfDigits(s, 10);
    }
  }

  /** A run of decimal digits converts to its value. */
  lemma StrtolDigits(d: string)
    requires |d| > 0 && DigitRun(d, 10) == |d|
    ensures Strtol(d, 10) == Some(DigitsValue(d, 10) as int)
  {
    assert LeadingSpaces(d) == 0 by {
      assert IsDigit(d[0], 10);
    }
    assert d[0..] == d;
    MagnitudeOfDigits(d, 10);
  }

  /** A minus sign followed by digits that need no prefix skipping converts to the negated magnitude. */
  lemma StrtolOfNegative(s: string, d: string, base: nat, v: nat)
    requires |s| > 0 && s[0] == '-' && s[1..] == d
    requires DigitsStart(d, base) == d && Magnitude(d, base) == Some(v)
    ensures Strtol(s, base) == Some(0 - v)
  {
    assert LeadingSpaces(s) == 0;
    assert s[0..] == s;
  }

  /** Every `int` survives the decimal round trip through `std::to_string` and `std::stoi`. */
  lemma DecimalRoundTrip(n: Int32)
    ensures Stoi(Decimal(n), 10) == Some(n)
  {
    if n < 0 {
      StrtolOfDecimalNegative(n);
    } else {
      StrtolOfDecimalNatural(n);
    }
    StoiInRange(Decimal(n), 10, n);
  }

  lemma StrtolOfDecimalNegative(n: int)
    requires n < 0
    ensures Strtol(Decimal(n), 10) == Some(n)
  {
    var d := DecimalDigits(0 - n);
    DecimalDigitsValue(0 - n);
    MagnitudeOfDigits(d, 10);
    DecimalOfNegative(n);
    StrtolOfNegative(Decimal(n), d, 10, 0 - n);
  }

  lemma DecimalOfNegative(n: int)
    requires n < 0
    ensures |Decimal(n)| > 0 && Decimal(n)[0] == '-' && Decimal(n)[1..] == DecimalDigits(0 - n)
  {
    assert Decimal(n) == "-" + DecimalDigits(0 - n);
  }

  lemma StrtolOfDecimalNatural(n: nat)
    ensures Strtol(Decimal(n), 10) == Some(n)
  {
    DecimalDigitsValue(n);
    StrtolDigits(DecimalDigits(n));
  }

  lemma StoiInRange(s: string, base: nat, v: Int32)
    requires Strtol(s, base) == Some(v as int)
    ensures Stoi(s, base) == Some(v)
  {
  }
}
