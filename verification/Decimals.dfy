/** Numbers written in decimal digits. */
module Decimals {
  import opened Prelude
  import opened GoInt

  predicate IsDigit(c: byte) { 48 <= c <= 57 }

  ghost predicate AllDigits(s: Bytes) { forall i :: 0 <= i < |s| ==> IsDigit(s[i]) }

  function DigitsEnd(s: Bytes, i: nat): (j: nat)
    requires i <= |s|
    ensures i <= j <= |s|
    decreases |s| - i
  {
    if i < |s| && IsDigit(s[i]) then DigitsEnd(s, i + 1) else i
  }

  lemma {:induction false} DigitsAreDigits(s: Bytes, i: nat)
    requires i <= |s|
    ensures forall k :: i <= k < DigitsEnd(s, i) ==> IsDigit(s[k])
    decreases |s| - i
  {
    if i < |s| && IsDigit(s[i]) {
      DigitsAreDigits(s, i + 1);
    }
  }

  function ValueOf(digits: Bytes): int {
    if digits == [] then 0 else ValueOf(digits[..|digits| - 1]) * 10 + (digits[|digits| - 1] as int - 48)
  }

  lemma {:induction false} ValueIsNat(digits: Bytes)
    requires AllDigits(digits)
    ensures ValueOf(digits) >= 0
  {
    if digits != [] {
      assert IsDigit(digits[|digits| - 1]);
      ValueIsNat(digits[..|digits| - 1]);
    }
  }

  /** strconv.AppendUint in base 10. */
  function Decimal(n: nat): (d: Bytes)
    ensures d != [] && AllDigits(d)
  {
    if n < 10 then [48 + n] else Decimal(n / 10) + [48 + n % 10]
  }

  lemma {:induction false} ValueOfDecimal(n: nat)
    ensures ValueOf(Decimal(n)) == n
  {
    if n >= 10 {
      ValueOfDecimal(n / 10);
      assert Decimal(n)[..|Decimal(n)| - 1] == Decimal(n / 10);
    }
  }

  lemma {:induction false} DigitsEndAfter(prefix: Bytes, digits: Bytes, rest: Bytes, k: nat)
    requires AllDigits(digits)
    requires rest != [] && !IsDigit(rest[0]) && k <= |digits|
    ensures DigitsEnd(prefix + digits + rest, |prefix| + k) == |prefix| + |digits|
    decreases |digits| - k
  {
    var s := prefix + digits + rest;
    if k < |digits| {
      assert s[|prefix| + k] == digits[k];
      DigitsEndAfter(prefix, digits, rest, k + 1);
    } else {
      assert s[|prefix| + k] == rest[0];
    }
  }
}
