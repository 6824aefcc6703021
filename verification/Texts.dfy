/**
 JavaScript strings as sequences of UTF-16 code units, lone surrogates included: the
 default order of Array.prototype.sort, which compares code units, String.prototype.trim
 with its set of white space, and decimal numerals. A numeral without a leading zero is
 the only text of its number, and its length bounds its value from below and above.
 */
module Texts {

  type CodeUnit = x: int | 0 <= x < 0x1_0000

  type Text = seq<CodeUnit>

  const ZERO: CodeUnit := 48
  const NINE: CodeUnit := 57

  /** Code-unit order, the order sort() uses when no comparator is given. */
  predicate Less(a: Text, b: Text)
    decreases |a|
  {
    if |b| == 0 then false
    else if |a| == 0 then true
    else a[0] < b[0] || (a[0] == b[0] && Less(a[1..], b[1..]))
  }

  lemma {:induction false} LessIsStrictTotal(a: Text, b: Text)
    ensures !Less(a, a)
    ensures Less(a, b) || a == b || Less(b, a)
    ensures !(Less(a, b) && Less(b, a))
    decreases |a|
  {
    if |a| > 0 {
      LessIsStrictTotal(a[1..], if |b| > 0 then b[1..] else []);
      if |b| > 0 && a[0] == b[0] && a[1..] == b[1..] {
        assert a == [a[0]] + a[1..] == [b[0]] + b[1..] == b;
      }
    }
  }

  lemma {:induction false} LessIsTransitive(a: Text, b: Text, c: Text)
    requires Less(a, b) && Less(b, c)
    ensures Less(a, c)
    decreases |a|
  {
    if |a| > 0 && a[0] == b[0] == c[0] {
      LessIsTransitive(a[1..], b[1..], c[1..]);
    }
  }

  /** The first unit that differs decides, and a proper prefix comes first. */
  lemma {:induction false} LessIsLexicographic(a: Text, b: Text)
    ensures Less(a, b) <==> exists k :: 0 <= k <= |a| && DiffersAt(a, b, k)
    decreases |a|
  {
    if |a| > 0 && |b| > 0 && a[0] == b[0] {
      LessIsLexicographic(a[1..], b[1..]);
      if Less(a[1..], b[1..]) {
        var k :| 0 <= k <= |a[1..]| && DiffersAt(a[1..], b[1..], k);
        assert a[..k + 1] == [a[0]] + a[1..][..k] && b[..k + 1] == [b[0]] + b[1..][..k];
        assert DiffersAt(a, b, k + 1);
      }
      if k :| 0 <= k <= |a| && DiffersAt(a, b, k) {
        assert k > 0 && a[1..][..k - 1] == a[..k][1..] && b[1..][..k - 1] == b[..k][1..];
        assert DiffersAt(a[1..], b[1..], k - 1);
      }
    } else if |b| > 0 && (|a| == 0 || a[0] < b[0]) {
      assert DiffersAt(a, b, 0);
    } else if |a| > 0 && |b| > 0 {
      assert forall k | 0 < k <= |a| && k < |b| :: a[..k][0] != b[..k][0];
    }
  }

  /** The texts agree up to k; there a ends, or has the smaller unit. */
  predicate DiffersAt(a: Text, b: Text, k: nat)
    requires k <= |a|
  {
    k < |b| && a[..k] == b[..k] && (k == |a| || a[k] < b[k])
  }

  /** White space and line terminators removed by String.prototype.trim. */
  predicate IsWhitespace(c: CodeUnit) {
    || 9 <= c <= 13
    || c == 32
    || c == 0xA0
    || c == 0x1680
    || 0x2000 <= c <= 0x200A
    || c == 0x2028
    || c == 0x2029
    || c == 0x202F
    || c == 0x205F
    || c == 0x3000
    || c == 0xFEFF
  }

  /** The code points of WhiteSpace and LineTerminator, one by one. */
  lemma WhitespaceIsListed(c: CodeUnit)
    ensures IsWhitespace(c) <==>
      c in {0x09, 0x0A, 0x0B, 0x0C, 0x0D, 0x20, 0xA0, 0x1680, 0x2028, 0x2029, 0x202F, 0x205F, 0x3000, 0xFEFF}
      || c in {0x2000, 0x2001, 0x2002, 0x2003, 0x2004, 0x2005, 0x2006, 0x2007, 0x2008, 0x2009, 0x200A}
  {
  }

  function TrimStart(t: Text): (r: Text)
    ensures |r| <= |t|
    ensures r == [] || !IsWhitespace(r[0])
  {
    if |t| > 0 && IsWhitespace(t[0]) then TrimStart(t[1..]) else t
  }

  function TrimEnd(t: Text): (r: Text)
    ensures r <= t
    ensures r == [] || !IsWhitespace(r[|r| - 1])
  {
    if |t| > 0 && IsWhitespace(t[|t| - 1]) then TrimEnd(t[..|t| - 1]) else t
  }

  function Trim(t: Text): (r: Text)
    ensures r == [] || (!IsWhitespace(r[0]) && !IsWhitespace(r[|r| - 1]))
    ensures t == [] || (!IsWhitespace(t[0]) && !IsWhitespace(t[|t| - 1])) ==> r == t
  {
    TrimEnd(TrimStart(t))
  }

  /** Trimming removes white space at both ends and nothing else. */
  lemma TrimCuts(t: Text) returns (front: Text, back: Text)
    ensures t == front + Trim(t) + back
    ensures (forall i | 0 <= i < |front| :: IsWhitespace(front[i])) && (forall i | 0 <= i < |back| :: IsWhitespace(back[i]))
  {
    front := TrimStartCuts(t);
    back := TrimEndCuts(TrimStart(t));
  }

  lemma {:induction false} TrimStartCuts(t: Text) returns (front: Text)
    ensures t == front + TrimStart(t) && forall i | 0 <= i < |front| :: IsWhitespace(front[i])
  {
    front := [];
    if |t| > 0 && IsWhitespace(t[0]) {
      var rest := TrimStartCuts(t[1..]);
      front := [t[0]] + rest;
      assert t == [t[0]] + t[1..];
    }
  }

  lemma {:induction false} TrimEndCuts(t: Text) returns (back: Text)
    ensures t == TrimEnd(t) + back && forall i | 0 <= i < |back| :: IsWhitespace(back[i])
  {
    back := [];
    if |t| > 0 && IsWhitespace(t[|t| - 1]) {
      var rest := TrimEndCuts(t[..|t| - 1]);
      back := rest + [t[|t| - 1]];
      assert t == t[..|t| - 1] + [t[|t| - 1]];
    }
  }

  predicate IsDigit(c: CodeUnit) {
    ZERO <= c <= NINE
  }

  predicate AllDigits(t: Text) {
    forall i | 0 <= i < |t| :: IsDigit(t[i])
  }

  /** The pattern ^(0|[1-9][0-9]*)$. */
  predicate IsNonnegativeDecimal(t: Text) {
    |t| > 0 && AllDigits(t) && (|t| > 1 ==> t[0] != ZERO)
  }

  function DigitsValue(t: Text): nat
    requires AllDigits(t)
  {
    if |t| == 0 then 0 else 10 * DigitsValue(t[..|t| - 1]) + (t[|t| - 1] - ZERO)
  }

  function DecimalText(n: nat): (t: Text)
    ensures IsNonnegativeDecimal(t)
    ensures DigitsValue(t) == n
    ensures n > 0 ==> t[0] != ZERO
  {
    if n < 10 then [ZERO + n] else DecimalText(n / 10) + [ZERO + n % 10]
  }

  /** A numeral without leading zeros is the printed form of its value. */
  lemma {:induction false} DecimalTextIsCanonical(t: Text)
    requires IsNonnegativeDecimal(t)
    ensures DecimalText(DigitsValue(t)) == t
  {
    if |t| > 1 {
      var front := t[..|t| - 1];
      DecimalTextIsCanonical(front);
      assert t == front + [t[|t| - 1]];
      PositiveValue(front);
    }
  }

  lemma {:induction false} PositiveValue(t: Text)
    requires AllDigits(t) && |t| > 0 && t[0] != ZERO
    ensures DigitsValue(t) > 0
  {
    if |t| > 1 {
      PositiveValue(t[..|t| - 1]);
    }
  }

  /** A digit string is worth less than ten to its length. */
  function Pow10(n: nat): (p: nat)
    ensures p > 0
  {
    if n == 0 then 1 else 10 * Pow10(n - 1)
  }

  lemma {:induction false} ValueBound(t: Text)
    requires AllDigits(t)
    ensures DigitsValue(t) < Pow10(|t|)
  {
    if |t| > 0 {
      ValueBound(t[..|t| - 1]);
    }
  }

  lemma {:induction false} LongNumbersAreLarge(t: Text)
    requires AllDigits(t) && |t| > 0 && t[0] != ZERO
    ensures DigitsValue(t) >= Pow10(|t| - 1)
  {
    if |t| > 1 {
      LongNumbersAreLarge(t[..|t| - 1]);
    }
  }

  lemma {:induction false} Pow10Grows(m: nat, n: nat)
    requires m <= n
    ensures Pow10(m) <= Pow10(n)
  {
    if m < n {
      Pow10Grows(m, n - 1);
    }
  }

  lemma TenToTheTenth()
    ensures Pow10(9) == 1_000_000_000 && Pow10(10) == 10_000_000_000
  {
    assert Pow10(5) == 100_000;
  }

  lemma {:induction false} ValueOfConcat(a: Text, b: Text)
    requires AllDigits(a) && AllDigits(b)
    ensures AllDigits(a + b)
    ensures DigitsValue(a + b) == DigitsValue(a) * Pow10(|b|) + DigitsValue(b)
  {
    if |b| == 0 {
      assert a + b == a;
    } else {
      var front := b[..|b| - 1];
      ValueOfConcat(a, front);
      assert (a + b)[..|a + b| - 1] == a + front;
      TimesTen(DigitsValue(a), Pow10(|front|));
    }
  }

  lemma TimesTen(v: nat, p: nat)
    ensures v * (10 * p) == 10 * (v * p)
  {
  }

  function Zeros(n: nat): (t: Text)
    ensures |t| == n && AllDigits(t)
    ensures DigitsValue(t) == 0
  {
    if n == 0 then [] else Zeros(n - 1) + [ZERO]
  }
}
