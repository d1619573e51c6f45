// Decimal spellings of numbers and how they compare as text.
module Decimal {

  function Digit(d: nat): char
    requires d < 10
  {
    '0' + d as char
  }

  predicate IsDigit(c: char) {
    '0' <= c <= '9'
  }

  /** str(n) */
  function Spell(n: nat): (s: string)
    ensures s != "" && forall i :: 0 <= i < |s| ==> IsDigit(s[i])
  {
    if n < 10 then [Digit(n)] else Spell(n / 10) + [Digit(n % 10)]
  }

  function Value(s: string): nat
    requires forall i :: 0 <= i < |s| ==> IsDigit(s[i])
  {
    if s == "" then 0
    else
      var last := s[|s| - 1];
      assert IsDigit(last);
      10 * Value(s[..|s| - 1]) + (last as int - '0' as int)
  }

  /** Reading a spelling back gives the number, so different numbers are spelled differently. */
  lemma {:induction false} ValueOfSpell(n: nat)
    ensures Value(Spell(n)) == n
  {
    var s := Spell(n);
    if n < 10 {
      assert s[..0] == "";
    } else {
      ValueOfSpell(n / 10);
      assert s[..|s| - 1] == Spell(n / 10);
    }
  }

  lemma SpellInjective(a: nat, b: nat)
    requires Spell(a) == Spell(b)
    ensures a == b
  {
    ValueOfSpell(a);
    ValueOfSpell(b);
  }

  // ----- fixed width -------------------------------------------------------------------

  function Pow10(w: nat): (p: nat)
    ensures p > 0
  {
    if w == 0 then 1 else 10 * Pow10(w - 1)
  }

  function Zeros(n: nat): (s: string)
    ensures |s| == n
  {
    if n == 0 then "" else ['0'] + Zeros(n - 1)
  }

  /** lpad(s, w, '0'): padded on the left, or cut on the right when it is too long. */
  function LeftPad(s: string, w: nat): (r: string)
    ensures |r| == w
  {
    if |s| >= w then s[..w] else Zeros(w - |s|) + s
  }

  /** The last w decimal digits of n. */
  function Fixed(n: nat, w: nat): (s: string)
    ensures |s| == w
  {
    if w == 0 then "" else Fixed(n / 10, w - 1) + [Digit(n % 10)]
  }

  lemma {:induction false} SpellLength(n: nat, w: nat)
    requires n < Pow10(w) && w > 0
    ensures |Spell(n)| <= w
  {
    if n >= 10 { SpellLength(n / 10, w - 1); }
  }

  lemma {:induction false} FixedOfZero(w: nat)
    ensures Fixed(0, w) == Zeros(w)
  {
    if w > 0 {
      FixedOfZero(w - 1);
      ZerosSnoc(w - 1);
    }
  }

  lemma {:induction false} ZerosSnoc(n: nat)
    ensures Zeros(n) + ['0'] == Zeros(n + 1)
  {
    if n > 0 {
      ZerosSnoc(n - 1);
      assert Zeros(n) + ['0'] == ['0'] + (Zeros(n - 1) + ['0']);
    }
  }

  /** Left-padding a number that has room is writing it in fixed width. */
  lemma {:induction false} LeftPadIsFixed(n: nat, w: nat)
    requires n < Pow10(w) && w > 0
    ensures LeftPad(Spell(n), w) == Fixed(n, w)
    decreases w
  {
    SpellLength(n, w);
    if n < 10 {
      FixedOfZero(w - 1);
      if w == 1 { assert Spell(n)[..1] == Spell(n); }
    } else {
      LeftPadIsFixed(n / 10, w - 1);
      SpellLength(n / 10, w - 1);
      var s := Spell(n / 10);
      if |s| == w - 1 {
        assert s[..w - 1] == s && Spell(n)[..w] == Spell(n);
      } else {
        assert Zeros(w - 1 - |s|) + s + [Digit(n % 10)] == Zeros(w - 1 - |s|) + (s + [Digit(n % 10)]);
      }
    }
  }

  // ----- text order ------------------------------------------------------------------------

  /** Lexicographic order by character. */
  predicate Less(a: string, b: string) {
    b != "" && (a == "" || a[0] < b[0] || (a[0] == b[0] && Less(a[1..], b[1..])))
  }

  lemma {:induction false} LessIrreflexive(a: string)
    ensures !Less(a, a)
  {
    if a != "" { LessIrreflexive(a[1..]); }
  }

  /** Texts that begin with fields of one width compare field by field. */
  lemma {:induction false} LessByField(a: string, b: string, c: string, d: string)
    requires |a| == |c|
    ensures Less(a + b, c + d) <==> Less(a, c) || (a == c && Less(b, d))
  {
    if a == "" {
      assert a + b == b && c + d == d;
    } else {
      LessByField(a[1..], b, c[1..], d);
      assert (a + b)[1..] == a[1..] + b && (c + d)[1..] == c[1..] + d;
      assert a == [a[0]] + a[1..] && c == [c[0]] + c[1..];
    }
  }

  lemma DigitOrder(a: nat, b: nat)
    requires a < 10 && b < 10
    ensures Digit(a) < Digit(b) <==> a < b
    ensures Digit(a) == Digit(b) <==> a == b
  {
  }

  /** In fixed width, text order is numeric order. */
  lemma {:induction false} FixedOrder(m: nat, n: nat, w: nat)
    requires m < Pow10(w) && n < Pow10(w)
    ensures Less(Fixed(m, w), Fixed(n, w)) <==> m < n
    ensures Fixed(m, w) == Fixed(n, w) <==> m == n
  {
    if w > 0 {
      FixedOrder(m / 10, n / 10, w - 1);
      DigitOrder(m % 10, n % 10);
      LessByField(Fixed(m / 10, w - 1), [Digit(m % 10)], Fixed(n / 10, w - 1), [Digit(n % 10)]);
      var x, y := Fixed(m, w), Fixed(n, w);
      assert x[..w - 1] == Fixed(m / 10, w - 1) && y[..w - 1] == Fixed(n / 10, w - 1);
      assert x[w - 1] == Digit(m % 10) && y[w - 1] == Digit(n % 10);
    }
  }
}
