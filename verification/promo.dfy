/**
 * The reward code of main.js, generatePromo: the decimal string of
 * 10000 + a draw below 90000, so always five digits with a non-zero lead.
 */
module Promo {

  const PROMO_BASE: nat := 10000
  const PROMO_SPAN: nat := 90000

  predicate IsDigit(c: char) {
    '0' <= c <= '9'
  }

  predicate AllDigits(s: string) {
    forall i | 0 <= i < |s| :: IsDigit(s[i])
  }

  function DigitChar(d: nat): (c: char)
    requires d < 10
    ensures IsDigit(c)
  {
    (('0' as int) + d) as char
  }

  function DigitValue(c: char): (d: nat)
    requires IsDigit(c)
    ensures d < 10
  {
    (c as int) - ('0' as int)
  }

  /** Number.prototype.toString on a non-negative integer: its decimal digits, most significant first. */
  function Decimal(n: nat): (s: string)
    ensures |s| >= 1 && AllDigits(s)
    ensures n >= 1 ==> s[0] != '0'
    decreases n
  {
    if n < 10 then [DigitChar(n)] else Decimal(n / 10) + [DigitChar(n % 10)]
  }

  /** The number a string of decimal digits denotes. */
  function ValueOf(s: string): nat
    requires AllDigits(s)
  {
    if s == [] then 0 else 10 * ValueOf(s[..|s| - 1]) + DigitValue(s[|s| - 1])
  }

  /** Reading back the decimal string of n gives n. */
  lemma {:induction false} DecimalRoundTrip(n: nat)
    ensures ValueOf(Decimal(n)) == n
    decreases n
  {
    var s := Decimal(n);
    if n >= 10 {
      DecimalRoundTrip(n / 10);
      assert s[..|s| - 1] == Decimal(n / 10);
    }
  }

  function Pow10(k: nat): (p: nat)
    ensures p >= 1
  {
    if k == 0 then 1 else 10 * Pow10(k - 1)
  }

  /** A number with k + 1 digits has a decimal string of length k + 1. */
  lemma {:induction false} DecimalLength(n: nat, k: nat)
    requires Pow10(k) <= n < Pow10(k + 1)
    ensures |Decimal(n)| == k + 1
    decreases k
  {
    if k > 0 {
      assert Pow10(k) == 10 * Pow10(k - 1);
      assert Pow10(k + 1) == 10 * Pow10(k);
      DecimalLength(n / 10, k - 1);
    }
  }

  /**
   * generatePromo. `draw` stands for Math.floor(Math.random() * 90000): the
   * code is the decimal string of 10000 + draw, five digits, no leading zero.
   */
  function GeneratePromo(draw: nat): (code: string)
    requires draw < PROMO_SPAN
    ensures |code| == 5 && AllDigits(code) && code[0] != '0'
    ensures ValueOf(code) == PROMO_BASE + draw
    ensures PROMO_BASE <= ValueOf(code) <= 99999
  {
    DecimalRoundTrip(PROMO_BASE + draw);
    assert Pow10(4) == 10000 && Pow10(5) == 100000;
    DecimalLength(PROMO_BASE + draw, 4);
    Decimal(PROMO_BASE + draw)
  }

  /** Distinct draws give distinct codes, so the code is not a constant. */
  lemma PromoInjective(draw1: nat, draw2: nat)
    requires draw1 < PROMO_SPAN && draw2 < PROMO_SPAN
    ensures GeneratePromo(draw1) == GeneratePromo(draw2) <==> draw1 == draw2
  {
  }
}
