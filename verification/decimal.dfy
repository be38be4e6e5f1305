/** Unsigned decimal numbers in text, as Rust reads and prints a `u32`. */
module Decimal {
  import opened Wrappers

  const U32_LIMIT: int := 0x1_0000_0000

  type u32 = n: int | 0 <= n < U32_LIMIT

  predicate IsDigit(c: char) {
    '0' <= c <= '9'
  }

  predicate AllDigits(s: string) {
    forall i | 0 <= i < |s| :: IsDigit(s[i])
  }

  function Value(digits: string): nat
    requires AllDigits(digits)
  {
    if digits == [] then 0
    else Value(digits[..|digits| - 1]) * 10 + (digits[|digits| - 1] as int - '0' as int)
  }

  function Format(n: nat): (s: string)
    ensures s != [] && AllDigits(s)
  {
    var digit := (n % 10 + '0' as int) as char;
    if n < 10 then [digit] else Format(n / 10) + [digit]
  }

  /** `str::parse::<u32>`: one leading plus sign is allowed, nothing else around the
      digits, and the value has to fit. */
  function ParseU32(s: string): Option<u32> {
    var body := if s != [] && s[0] == '+' then s[1..] else s;
    if body == [] || !AllDigits(body) || Value(body) >= U32_LIMIT then None else Some(Value(body))
  }

  /** Printing then reading gives the number back. */
  lemma {:induction false} ParseOfFormat(n: u32)
    ensures ParseU32(Format(n)) == Some(n)
  {
    ValueOfFormat(n);
    assert IsDigit(Format(n)[0]);
  }

  lemma {:induction false} ValueOfFormat(n: nat)
    ensures Value(Format(n)) == n
  {
    if n >= 10 {
      ValueOfFormat(n / 10);
      var s := Format(n);
      assert s[..|s| - 1] == Format(n / 10);
    }
  }

  /** A number is read exactly off its digits, with or without one plus sign, when it
      fits. */
  lemma ParseU32Means(s: string, n: u32)
    ensures ParseU32(s) == Some(n) <==>
            exists digits :: (s == digits || s == "+" + digits) && digits != [] && AllDigits(digits) && Value(digits) == n
  {
    if ParseU32(s) == Some(n) {
      var digits := if s != [] && s[0] == '+' then s[1..] else s;
      assert s == digits || s == "+" + digits;
    }
    if digits :| (s == digits || s == "+" + digits) && digits != [] && AllDigits(digits) && Value(digits) == n {
      assert IsDigit(digits[0]);
      assert s != digits ==> s[1..] == digits;
    }
  }

  /** Reading then printing gives the digits back, but for zeros in front, which count
      for nothing. */
  lemma {:induction false} FormatOfValue(digits: string)
    requires AllDigits(digits) && digits != []
    ensures digits[0] != '0' || |digits| == 1 ==> Format(Value(digits)) == digits
    ensures digits[0] == '0' ==> Value(digits) == Value(digits[1..])
    ensures digits[0] != '0' ==> Value(digits) > 0
  {
    var n := |digits| - 1;
    var last := digits[n] as int - '0' as int;
    if n > 0 {
      FormatOfValue(digits[..n]);
      assert digits == digits[..n] + [digits[n]];
      assert digits[1..][..n - 1] == digits[..n][1..];
    }
    assert (last + '0' as int) as char == digits[n];
  }

  /** The digits a text starts with. */
  function LeadingDigits(s: string): string {
    if s != [] && IsDigit(s[0]) then [s[0]] + LeadingDigits(s[1..]) else []
  }

  lemma {:induction false} LeadingDigitsStopAtTheRest(digits: string, rest: string)
    requires AllDigits(digits) && (rest == [] || !IsDigit(rest[0]))
    ensures LeadingDigits(digits + rest) == digits
  {
    if digits == [] {
      assert digits + rest == rest;
    } else {
      assert (digits + rest)[1..] == digits[1..] + rest;
      LeadingDigitsStopAtTheRest(digits[1..], rest);
    }
  }
}
