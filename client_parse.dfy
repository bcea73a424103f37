/**
 * `u32::from_str` and `u64::from_str` as the client's input screens use
 * them: an optional `+`, then one or more ASCII digits, and a value that
 * fits the type. No sign other than `+`, no spaces, no empty input.
 */
module FromStr {
  import opened Wire

  const PLUS: u8 := 0x2B

  predicate IsDigit(b: u8) {
    0x30 <= b <= 0x39
  }

  predicate AllDigits(s: Bytes) {
    forall i :: 0 <= i < |s| ==> IsDigit(s[i])
  }

  /** The value of a run of ASCII digits, most significant first. */
  function DigitsValue(s: Bytes): nat
    requires AllDigits(s)
  {
    if s == [] then 0 else DigitsValue(s[..|s| - 1]) * 10 + (s[|s| - 1] - 0x30)
  }

  /** The digits after an optional leading `+`. */
  function Unsigned(s: Bytes): Bytes {
    if |s| >= 1 && s[0] == PLUS then s[1..] else s
  }

  /** Parse an unsigned integer below `limit` (`U32_LIMIT` for `u32`, `U64_LIMIT` for `u64`). */
  function ParseUnsigned(s: Bytes, limit: nat): (r: Option<nat>)
    ensures r.Some? <==>
      var d := Unsigned(s);
      d != [] && AllDigits(d) && DigitsValue(d) < limit
    ensures r.Some? ==> r.value < limit && r.value == DigitsValue(Unsigned(s))
  {
    var d := Unsigned(s);
    if d == [] || !AllDigits(d) then None
    else if DigitsValue(d) >= limit then None
    else Some(DigitsValue(d))
  }

  /** Reading back the decimal rendering of a number gives the number. */
  lemma {:induction false} DigitsOfDecimal(n: nat)
    ensures AllDigits(Decimal(n)) && DigitsValue(Decimal(n)) == n
  {
    if n >= 10 {
      DigitsOfDecimal(n / 10);
      var d := Decimal(n);
      assert d[..|d| - 1] == Decimal(n / 10);
    }
  }

  /** `n.to_string().parse()` gives back `n` whenever `n` fits, with or without a leading `+`. */
  lemma ParseDecimal(n: nat, limit: nat)
    requires n < limit
    ensures ParseUnsigned(Decimal(n), limit) == Some(n)
    ensures ParseUnsigned([PLUS] + Decimal(n), limit) == Some(n)
  {
    DigitsOfDecimal(n);
    assert Unsigned([PLUS] + Decimal(n)) == Decimal(n);
  }

  /** Some byte is neither a digit nor the one permitted leading `+`. */
  predicate HasStray(s: Bytes) {
    exists i :: 0 <= i < |s| && !IsDigit(s[i]) && !(i == 0 && s[i] == PLUS)
  }

  /** Empty text, a lone `+`, and text with a stray byte are refused. */
  lemma ParseRefuses(s: Bytes, limit: nat)
    requires s == [] || s == [PLUS] || HasStray(s)
    ensures ParseUnsigned(s, limit).None?
  {
  }
}
