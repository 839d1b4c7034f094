/** Rust's integer and boolean parsing. */
module Parsing {
  import opened Wrappers

  const U16_MAX: nat := 0xFFFF
  const U64_MAX: nat := 0xFFFF_FFFF_FFFF_FFFF

  predicate IsDigit(c: char) { '0' <= c <= '9' }

  function DigitValue(c: char): nat
    requires IsDigit(c)
  {
    (c - '0') as nat
  }

  predicate AllDigits(s: string) { forall c | c in s :: IsDigit(c) }

  /** The number written by the digits, read after `acc`. */
  function Number(acc: nat, s: string): nat
    requires AllDigits(s)
    decreases s
  {
    if s == [] then acc else assert s[0] in s; Number(acc * 10 + DigitValue(s[0]), s[1..])
  }

  /** The checked multiply-and-add of `str::parse`, which gives up at the first overflow. */
  function ParseDigits(acc: nat, s: string, max: nat): Option<nat>
    decreases s
  {
    if s == [] then Some(acc)
    else if !IsDigit(s[0]) || acc * 10 > max || acc * 10 + DigitValue(s[0]) > max then None
    else ParseDigits(acc * 10 + DigitValue(s[0]), s[1..], max)
  }

  /** `parse` for an unsigned type: an optional plus sign and at least one digit. */
  function ParseUnsigned(s: string, max: nat): Option<nat> {
    if s == "" || s == "+" || s == "-" then None
    else if s[0] == '+' then ParseDigits(0, s[1..], max)
    else ParseDigits(0, s, max)
  }

  function ParseBool(s: string): Option<bool> {
    if s == "true" then Some(true) else if s == "false" then Some(false) else None
  }

  lemma {:induction false} NumberGrows(acc: nat, s: string)
    requires AllDigits(s)
    ensures acc <= Number(acc, s)
    decreases s
  {
    if s != [] {
      assert s[0] in s;
      NumberGrows(acc * 10 + DigitValue(s[0]), s[1..]);
    }
  }

  /** Checking every step is checking the number: an overflow on the way is never undone. */
  lemma {:induction false} ParseDigitsIff(acc: nat, s: string, max: nat)
    requires acc <= max
    ensures ParseDigits(acc, s, max)
         == if AllDigits(s) && Number(acc, s) <= max then Some(Number(acc, s)) else None
    decreases s
  {
    if s != [] {
      assert s == [s[0]] + s[1..];
      assert AllDigits(s) <==> IsDigit(s[0]) && AllDigits(s[1..]);
      if IsDigit(s[0]) {
        var next := acc * 10 + DigitValue(s[0]);
        if next <= max { ParseDigitsIff(next, s[1..], max); }
        else if AllDigits(s) { NumberGrows(next, s[1..]); }
      }
    }
  }

  /** A numeral: digits, perhaps after a plus sign, for a number in range. */
  ghost predicate Numeral(s: string, max: nat) {
    var digits := if s != "" && s[0] == '+' then s[1..] else s;
    digits != "" && AllDigits(digits) && Number(0, digits) <= max
  }

  // ---------- the numbers that texts write ----------

  const DIGITS := "0123456789"

  /** The usual way to write a number. */
  function Decimal(n: nat): string {
    if n < 10 then [DIGITS[n]] else Decimal(n / 10) + [DIGITS[n % 10]]
  }

  function Zeros(k: nat): string { seq(k, _ => '0') }

  /** The text writes the number: perhaps a plus sign, perhaps leading zeros, and its decimal digits. */
  ghost predicate Writes(s: string, n: nat) {
    exists plus, zeros :: s == Written(plus, zeros, n)
  }

  function Written(plus: bool, zeros: nat, n: nat): string {
    (if plus then "+" else "") + (Zeros(zeros) + Decimal(n))
  }

  lemma {:induction false} NumberSnoc(acc: nat, s: string, c: char)
    requires AllDigits(s) && IsDigit(c)
    ensures AllDigits(s + [c]) && Number(acc, s + [c]) == Number(acc, s) * 10 + DigitValue(c)
    decreases s
  {
    if s == [] {
      assert [] + [c] == [c] && [c][1..] == [];
    } else {
      assert s[0] in s && (s + [c])[1..] == s[1..] + [c];
      NumberSnoc(acc * 10 + DigitValue(s[0]), s[1..], c);
    }
  }

  lemma DigitOf(d: nat)
    requires d < 10
    ensures IsDigit(DIGITS[d]) && DigitValue(DIGITS[d]) == d
  {}

  lemma DigitIs(c: char)
    requires IsDigit(c)
    ensures DigitValue(c) < 10 && DIGITS[DigitValue(c)] == c
  {}

  lemma {:induction false} NumberDecimal(n: nat)
    ensures Decimal(n) != "" && AllDigits(Decimal(n)) && Number(0, Decimal(n)) == n
  {
    DigitOf(n % 10);
    if n < 10 {
      assert Decimal(n)[1..] == [];
    } else {
      NumberDecimal(n / 10);
      NumberSnoc(0, Decimal(n / 10), DIGITS[n % 10]);
    }
  }

  lemma {:induction false} ZerosDecimal(k: nat, n: nat)
    ensures AllDigits(Zeros(k) + Decimal(n)) && Number(0, Zeros(k) + Decimal(n)) == n
  {
    NumberDecimal(n);
    if k == 0 {
      assert Zeros(0) + Decimal(n) == Decimal(n);
    } else {
      ZerosDecimal(k - 1, n);
      assert (Zeros(k) + Decimal(n))[1..] == Zeros(k - 1) + Decimal(n);
    }
  }

  lemma DecimalSnoc(m: nat, v: nat)
    requires m > 0 && v < 10
    ensures Decimal(m * 10 + v) == Decimal(m) + [DIGITS[v]]
  {
    assert (m * 10 + v) / 10 == m && (m * 10 + v) % 10 == v;
  }

  lemma ZerosSnoc(k: nat)
    ensures Zeros(k) + Decimal(0) == Zeros(k + 1)
  {
    assert Decimal(0) == "0";
  }

  lemma {:induction false} DigitsAreDecimal(s: string) returns (k: nat)
    requires s != "" && AllDigits(s)
    ensures s == Zeros(k) + Decimal(Number(0, s))
    decreases |s|
  {
    var init, c := s[..|s| - 1], s[|s| - 1];
    assert s == init + [c] && c in s;
    DigitIs(c);
    NumberSnoc(0, init, c);
    if init == "" {
      k := 0;
    } else {
      k := DigitsAreDecimal(init);
      k := OneMoreDigit(init, k, Number(0, init), c);
    }
  }

  lemma OneMoreDigit(init: string, k: nat, m: nat, c: char) returns (k': nat)
    requires IsDigit(c) && init == Zeros(k) + Decimal(m)
    ensures init + [c] == Zeros(k') + Decimal(m * 10 + DigitValue(c))
  {
    var v := DigitValue(c);
    DigitIs(c);
    if m == 0 {
      ZerosSnoc(k);
      k' := k + 1;
    } else {
      DecimalSnoc(m, v);
      k' := k;
    }
  }

  /** Parsing gives a number exactly if the text writes it and it is in range. */
  lemma ParseGivesIff(s: string, max: nat, n: nat)
    ensures ParseUnsigned(s, max) == Some(n) <==> Writes(s, n) && n <= max
  {
    if ParseUnsigned(s, max) == Some(n) { ParsedIsWritten(s, max, n); }
    if Writes(s, n) {
      var plus, zeros :| s == Written(plus, zeros, n);
      WrittenDigits(plus, zeros, n);
      ParseDigitsIff(0, if plus then s[1..] else s, max);
    }
  }

  lemma ParsedIsWritten(s: string, max: nat, n: nat)
    requires ParseUnsigned(s, max) == Some(n)
    ensures Writes(s, n) && n <= max
  {
    var plus := s[0] == '+';
    var digits := if plus then s[1..] else s;
    ParseDigitsIff(0, digits, max);
    var zeros := DigitsAreDecimal(digits);
    assert s == (if plus then "+" else "") + digits;
    assert s == Written(plus, zeros, n);
  }

  lemma WrittenDigits(plus: bool, zeros: nat, n: nat)
    ensures var s := Written(plus, zeros, n);
            s != "" && (s[0] == '+' <==> plus) && |s| > (if plus then 1 else 0)
    ensures var digits := if plus then Written(plus, zeros, n)[1..] else Written(plus, zeros, n);
            digits != "" && AllDigits(digits) && Number(0, digits) == n
  {
    NumberDecimal(n);
    ZerosDecimal(zeros, n);
    var digits := Zeros(zeros) + Decimal(n);
    assert digits[0] in digits;
    if plus {
      assert Written(plus, zeros, n) == "+" + digits;
    } else {
      assert Written(plus, zeros, n) == digits;
    }
  }

  lemma ParseUnsignedIff(s: string, max: nat)
    ensures ParseUnsigned(s, max).Some? <==> Numeral(s, max)
  {
    var digits := if s != "" && s[0] == '+' then s[1..] else s;
    ParseDigitsIff(0, digits, max);
    if s == "-" { assert s[0] in s; }
  }
}
