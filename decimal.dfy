/** Ids travel as decimal text: rendered into the markup (`value.id`), posted back in
    form fields and query strings, and decoded into the handlers' `i64` fields. */
module Decimal {
  import opened Schema

  const I64_MIN: int := -0x8000_0000_0000_0000
  const I64_MAX: int := 0x7fff_ffff_ffff_ffff

  predicate IsDigit(c: char) {
    '0' <= c <= '9'
  }

  predicate AllDigits(s: string) {
    forall i :: 0 <= i < |s| ==> IsDigit(s[i])
  }

  function DigitChar(d: nat): (c: char)
    requires d < 10
    ensures IsDigit(c)
  {
    (48 + d) as char
  }

  function DigitValue(c: char): nat
    requires IsDigit(c)
  {
    (c as int) - 48
  }

  /** Decimal text of a natural number, no leading zeros. */
  function NatText(n: nat): (s: string)
    ensures |s| >= 1 && AllDigits(s)
    decreases n
  {
    if n < 10 then [DigitChar(n)] else NatText(n / 10) + [DigitChar(n % 10)]
  }

  /** How an integer is displayed: a minus sign for negatives, then its digits. */
  function IntText(n: int): string {
    if n < 0 then "-" + NatText(-n) else NatText(n)
  }

  function NatValue(s: string): nat
    requires AllDigits(s)
  {
    if |s| == 0 then 0 else NatValue(s[..|s| - 1]) * 10 + DigitValue(s[|s| - 1])
  }

  /** Decoding a submitted text into an `i64` field: an optional sign, one or more
      digits, and a value in range; anything else is rejected. */
  function ParseI64(s: string): (r: Option<int>)
    ensures r.Some? ==> I64_MIN <= r.value <= I64_MAX
  {
    var signed := |s| > 0 && (s[0] == '-' || s[0] == '+');
    var digits := if signed then s[1..] else s;
    if |digits| == 0 || !AllDigits(digits) then None
    else
      var v: int := if signed && s[0] == '-' then 0 - (NatValue(digits) as int) else NatValue(digits);
      if I64_MIN <= v <= I64_MAX then Some(v) else None
  }

  lemma {:induction false} NatValueText(n: nat)
    ensures NatValue(NatText(n)) == n
    decreases n
  {
    var s := NatText(n);
    if n >= 10 {
      assert s[..|s| - 1] == NatText(n / 10);
      NatValueText(n / 10);
    }
  }

  /** Every `i64` decodes back from the text it is displayed as. */
  lemma ParseIntText(n: int)
    requires I64_MIN <= n <= I64_MAX
    ensures ParseI64(IntText(n)) == Some(n)
  {
    var s := IntText(n);
    if n < 0 {
      assert s[0] == '-' && s[1..] == NatText(-n);
      NatValueText(-n);
    } else {
      assert IsDigit(s[0]);
      NatValueText(n);
    }
  }
}
