/**
 * Decimal text of unsigned integers as Rust prints it (`to_string`, `{}`) and
 * parses it (`str::parse::<u32>`): one optional '+', any number of leading
 * zeros, no other sign, no blanks, overflow is an error.
 */
module Decimal {
  import opened Common

  predicate IsDigit(c: char) { '0' <= c <= '9' }

  predicate AllDigits(s: string) { forall i | 0 <= i < |s| :: IsDigit(s[i]) }

  function DigitChar(d: nat): (c: char)
    requires d < 10
    ensures IsDigit(c) && DigitValue(c) == d
  {
    '0' + d as char
  }

  function DigitValue(c: char): (d: nat)
    requires IsDigit(c)
    ensures d < 10
  {
    (c - '0') as nat
  }

  /** Decimal text of `n`: digits only, and no leading zero except for 0 itself. */
  function Print(n: nat): (s: string)
    ensures |s| > 0 && AllDigits(s)
    ensures s[0] == '0' ==> n == 0
  {
    if n < 10 then [DigitChar(n)] else Print(n / 10) + [DigitChar(n % 10)]
  }

  /** The number a digit string denotes. */
  function Value(s: string): nat
    requires AllDigits(s)
  {
    if s == "" then 0 else Value(s[..|s| - 1]) * 10 + DigitValue(s[|s| - 1])
  }

  lemma {:induction false} ValueOfPrint(n: nat)
    ensures Value(Print(n)) == n
  {
    if n >= 10 {
      ValueOfPrint(n / 10);
      assert Print(n)[..|Print(n)| - 1] == Print(n / 10);
    }
  }

  /** `str::parse` for an unsigned type whose largest value is `max`. */
  function ParseUnsigned(s: string, max: nat): Option<nat> {
    var body := if |s| > 0 && s[0] == '+' then s[1..] else s;
    if body != "" && AllDigits(body) && Value(body) <= max then Some(Value(body)) else None
  }

  /** Printing then parsing gives the number back, exactly when it fits. */
  lemma ParseOfPrint(n: nat, max: nat)
    ensures ParseUnsigned(Print(n), max) == if n <= max then Some(n) else None
  {
    ValueOfPrint(n);
    assert IsDigit(Print(n)[0]);
  }

  lemma PrintInjective(a: nat, b: nat)
    requires Print(a) == Print(b)
    ensures a == b
  {
    ValueOfPrint(a);
    ValueOfPrint(b);
  }

  /** Length of the longest all-digit prefix. */
  function DigitRun(s: string): (k: nat)
    ensures k <= |s| && forall i | 0 <= i < k :: IsDigit(s[i])
    ensures k < |s| ==> !IsDigit(s[k])
  {
    if s == "" || !IsDigit(s[0]) then 0 else 1 + DigitRun(s[1..])
  }

  /** A printed number followed by a non-digit is read back whole, and no further. */
  lemma DigitRunOfPrint(n: nat, rest: string)
    requires rest == "" || !IsDigit(rest[0])
    ensures DigitRun(Print(n) + rest) == |Print(n)|
  {
    var s := Print(n) + rest;
    assert forall i | 0 <= i < |Print(n)| :: IsDigit(s[i]);
    assert rest != "" ==> s[|Print(n)|] == rest[0];
  }

  function Zeros(k: nat): (s: string)
    ensures |s| == k && AllDigits(s)
  {
    seq(k, i => '0')
  }

  lemma {:induction false} ValueOfPadded(k: nat, n: nat)
    ensures Value(Zeros(k) + Print(n)) == n
  {
    var s := Zeros(k) + Print(n);
    if n < 10 {
      assert s[..|s| - 1] == Zeros(k);
      ValueOfZeros(k);
    } else {
      assert s[..|s| - 1] == Zeros(k) + Print(n / 10);
      ValueOfPadded(k, n / 10);
    }
  }

  lemma {:induction false} ValueOfZeros(k: nat)
    ensures Value(Zeros(k)) == 0
  {
    if k > 0 {
      assert Zeros(k)[..k - 1] == Zeros(k - 1);
      ValueOfZeros(k - 1);
    }
  }

  /** Every digit string is a printed number behind zeros. */
  lemma {:induction false} DigitsArePadded(s: string) returns (k: nat)
    requires s != "" && AllDigits(s)
    ensures s == Zeros(k) + Print(Value(s))
  {
    var init, last := s[..|s| - 1], s[|s| - 1];
    assert s == init + [last];
    assert DigitChar(DigitValue(last)) == last;
    if init == "" {
      k := 0;
      assert Value(init) == 0;
    } else {
      k := DigitsArePadded(init);
      if Value(init) == 0 {
        assert init == Zeros(k + 1) by {
          assert Print(0) == "0";
        }
        k := k + 1;
      }
    }
    PrintSnoc(Value(init), last);
    hide Print, Value;
  }

  /** Printing ten times as much and a digit adds the digit, unless there was only a zero. */
  lemma PrintSnoc(n: nat, last: char)
    requires IsDigit(last)
    ensures Print(n * 10 + DigitValue(last)) == if n == 0 then [last] else Print(n) + [last]
  {
    assert DigitChar(DigitValue(last)) == last;
  }

  /** A text for `n`: an optional '+', any number of zeros, then the digits of `n`. */
  ghost predicate Spells(s: string, n: nat) {
    exists k: nat :: s == Zeros(k) + Print(n) || s == "+" + (Zeros(k) + Print(n))
  }

  function Unsigned(s: string): string { if |s| > 0 && s[0] == '+' then s[1..] else s }

  lemma SpellsIff(s: string, n: nat)
    ensures Spells(s, n) <==> exists k: nat :: Unsigned(s) == Zeros(k) + Print(n)
  {
    if k: nat :| Unsigned(s) == Zeros(k) + Print(n) {
      assert |s| > 0 && s[0] == '+' ==> s == "+" + Unsigned(s);
    }
    if Spells(s, n) {
      var k: nat :| s == Zeros(k) + Print(n) || s == "+" + (Zeros(k) + Print(n));
      assert IsDigit((Zeros(k) + Print(n))[0]);
      assert Unsigned(s) == Zeros(k) + Print(n);
    }
  }

  /** Exactly which texts parse, and to which number. */
  lemma ParseIff(s: string, max: nat, n: nat)
    ensures ParseUnsigned(s, max) == Some(n) <==> n <= max && Spells(s, n)
  {
    SpellsIff(s, n);
    hide Spells, Print, Value, Zeros;
    if ParseUnsigned(s, max) == Some(n) {
      var k := DigitsArePadded(Unsigned(s));
    }
    if k: nat :| Unsigned(s) == Zeros(k) + Print(n) {
      ValueOfPadded(k, n);
      assert AllDigits(Zeros(k) + Print(n));
    }
  }
}
