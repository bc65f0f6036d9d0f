/** Decimal text as the C++ standard library reads and writes it:
    `std::to_string` of a 64-bit integer, `std::stoll`, and the extraction
    `stream >> value` into an unsigned 64-bit integer. */
module Decimal {
  import Int64
  import opened Common

  const UINT64_MAX: int := 0xffff_ffff_ffff_ffff

  predicate IsDigit(c: char) { '0' <= c <= '9' }

  predicate AllDigits(s: string) { forall i :: 0 <= i < |s| ==> IsDigit(s[i]) }

  /** The characters `std::isspace` accepts in the "C" locale. */
  predicate IsSpace(c: char) { c == ' ' || c == '\t' || c == '\n' || c == '\r' || c == 12 as char || c == 11 as char }

  function DigitValue(c: char): nat
    requires IsDigit(c)
  {
    (c as int) - ('0' as int)
  }

  function DigitChar(d: nat): (c: char)
    requires d < 10
    ensures IsDigit(c) && DigitValue(c) == d
  {
    (('0' as int) + d) as char
  }

  /** The number an all-digit text spells, most significant digit first. */
  function DigitsValue(s: string): nat
    requires AllDigits(s)
  {
    if s == [] then 0 else DigitsValue(s[..|s| - 1]) * 10 + DigitValue(s[|s| - 1])
  }

  /** The length of the longest all-digit prefix. */
  function DigitPrefix(s: string): (n: nat)
    ensures n <= |s| && AllDigits(s[..n])
    ensures n < |s| ==> !IsDigit(s[n])
  {
    if s == [] || !IsDigit(s[0]) then 0
    else
      var n := 1 + DigitPrefix(s[1..]);
      assert s[..n] == [s[0]] + s[1..][..n - 1];
      n
  }

  /** The text left after leading white space. */
  function SkipSpace(s: string): (t: string)
    ensures |t| <= |s| && t == s[|s| - |t|..]
    ensures t != [] ==> !IsSpace(t[0])
  {
    if s != [] && IsSpace(s[0]) then SkipSpace(s[1..]) else s
  }

  /** Decimal digits of a natural number, without leading zeros. */
  function NaturalText(n: nat): (s: string)
    ensures s != [] && AllDigits(s)
    ensures s[0] == '0' ==> n == 0
  {
    if n < 10 then [DigitChar(n)] else NaturalText(n / 10) + [DigitChar(n % 10)]
  }

  /** `std::to_string` of a signed integer. */
  function IntText(n: int): string
  {
    if n < 0 then "-" + NaturalText(-n) else NaturalText(n)
  }

  /** `std::stoll` (base 10): white space, an optional sign and the longest
      run of digits are read; no digit throws `invalid_argument`, a value
      outside the 64-bit signed range throws `out_of_range`. */
  datatype StollResult = Parsed(value: int) | InvalidArgument | OutOfRange

  function Stoll(s: string): (r: StollResult)
    ensures r.Parsed? ==> Int64.InRange(r.value)
  {
    var t := SkipSpace(s);
    if t != [] && t[0] == '-' then Signed(true, LeadingNumber(t[1..]))
    else if t != [] && t[0] == '+' then Signed(false, LeadingNumber(t[1..]))
    else Signed(false, LeadingNumber(t))
  }

  /** The number spelled by the longest all-digit prefix, if there is a digit. */
  function LeadingNumber(s: string): Option<nat>
  {
    var n := DigitPrefix(s);
    if n == 0 then None else Some(DigitsValue(s[..n]))
  }

  function Signed(negative: bool, magnitude: Option<nat>): (r: StollResult)
    ensures r.Parsed? ==> Int64.InRange(r.value)
  {
    match magnitude
    case None => InvalidArgument
    case Some(m) =>
      var v: int := if negative then -(m as int) else m;
      if Int64.InRange(v) then Parsed(v) else OutOfRange
  }

  /** The state `stream >> value` leaves for an unsigned 64-bit target:
      the stored value and the stream's fail and end-of-file bits. A text
      with no digit stores 0 and fails; a value above the type's maximum
      stores the maximum and fails; reaching the end of the text sets the
      end-of-file bit. */
  datatype Extraction = Extraction(value: nat, fail: bool, eof: bool)
  {
    /** `stream.good()`: neither bit is set. */
    predicate Good() { !fail && !eof }
  }

  function ExtractUnsigned(s: string): (x: Extraction)
    ensures x.value <= UINT64_MAX
  {
    var t := SkipSpace(s);
    var n := DigitPrefix(t);
    match LeadingNumber(t)
    case None => Extraction(0, true, t == [])
    case Some(v) =>
      if v > UINT64_MAX then Extraction(UINT64_MAX, true, n == |t|)
      else Extraction(v, false, n == |t|)
  }

  lemma {:induction false} DigitsValueOfText(n: nat)
    ensures DigitsValue(NaturalText(n)) == n
  {
    if n >= 10 {
      DigitsValueOfText(n / 10);
      var s := NaturalText(n);
      assert s[..|s| - 1] == NaturalText(n / 10);
    }
  }

  lemma DigitPrefixOfDigits(s: string)
    requires AllDigits(s)
    ensures DigitPrefix(s) == |s|
  {
  }

  /** A whole all-digit text is one number. */
  lemma LeadingNumberOfDigits(s: string)
    requires s != [] && AllDigits(s)
    ensures DigitPrefix(s) == |s|
    ensures LeadingNumber(s) == Some(DigitsValue(s))
  {
    DigitPrefixOfDigits(s);
    assert s[..|s|] == s;
  }

  /** The extraction reads a whole decimal token: it stores the value (or
      the maximum, failing, when the value is too wide) and reaches the end. */
  lemma ExtractDigits(s: string)
    requires s != [] && AllDigits(s)
    ensures ExtractUnsigned(s) ==
              if DigitsValue(s) > UINT64_MAX then Extraction(UINT64_MAX, true, true)
              else Extraction(DigitsValue(s), false, true)
  {
    LeadingNumberOfDigits(s);
    assert IsDigit(s[0]);
    ExtractWhole(s, DigitsValue(s));
  }

  lemma ExtractWhole(s: string, v: nat)
    requires s != [] && !IsSpace(s[0])
    requires DigitPrefix(s) == |s| && LeadingNumber(s) == Some(v)
    ensures ExtractUnsigned(s) ==
              if v > UINT64_MAX then Extraction(UINT64_MAX, true, true) else Extraction(v, false, true)
  {
    assert SkipSpace(s) == s;
  }

  /** The digits `std::to_string` writes are read back as the same number. */
  lemma LeadingNumberOfText(m: nat)
    ensures LeadingNumber(NaturalText(m)) == Some(m)
    ensures DigitPrefix(NaturalText(m)) == |NaturalText(m)|
  {
    var s := NaturalText(m);
    DigitsValueOfText(m);
    DigitPrefixOfDigits(s);
    assert s[..|s|] == s;
  }

  /** Reading back what `std::to_string` wrote gives the same 64-bit
      integer: the round trip constant folding relies on. */
  lemma StollOfIntText(n: int)
    requires Int64.InRange(n)
    ensures Stoll(IntText(n)) == Parsed(n)
  {
    if n < 0 {
      var digits := NaturalText(-n);
      LeadingNumberOfText(-n);
      var s := "-" + digits;
      assert SkipSpace(s) == s;
      assert s[1..] == digits;
      assert Stoll(s) == Signed(true, Some(-n));
    } else {
      var s := NaturalText(n);
      LeadingNumberOfText(n);
      assert IsDigit(s[0]);
      assert SkipSpace(s) == s;
      assert Stoll(s) == Signed(false, Some(n));
    }
  }

  /** The decimal text of a value read back by the extraction: every value
      in the unsigned range is stored exactly, without failure, and the end
      of the text is reached. */
  lemma ExtractNaturalText(n: nat)
    requires n <= UINT64_MAX
    ensures ExtractUnsigned(NaturalText(n)) == Extraction(n, false, true)
  {
    var s := NaturalText(n);
    LeadingNumberOfText(n);
    assert IsDigit(s[0]);
    assert SkipSpace(s) == s;
  }
}
