/**
 Amounts of MINA as decimal text, with nine places. A nonnegative amount of any size is
 a whole numeral, a dot and nine digits, and parses back to itself. The parser also
 takes fewer places and surrounding white space, so it is printing after parsing that
 is canonical. Negative amounts print as text that the parser refuses.
 */
module Nanomina {
  import opened Wrappers
  import opened Texts

  const DOT: CodeUnit := 46
  const MINUS: CodeUnit := 45
  const NANOMINA_PER_MINA := 1_000_000_000
  const PLACES := 9

  /** Where the first dot stands, or the length. */
  function FirstDot(t: Text): (r: nat)
    ensures r <= |t|
  {
    if |t| == 0 || t[0] == DOT then 0 else 1 + FirstDot(t[1..])
  }

  lemma {:induction false} FirstDotIs(t: Text, k: nat)
    requires k < |t| && t[k] == DOT && forall i | 0 <= i < k :: t[i] != DOT
    ensures FirstDot(t) == k
  {
    if k > 0 {
      FirstDotIs(t[1..], k - 1);
    }
  }

  function PadEnd(t: Text): (r: Text)
    requires AllDigits(t) && |t| <= PLACES
    ensures AllDigits(r) && |r| == PLACES && t <= r
  {
    t + Zeros(PLACES - |t|)
  }

  /** padStart leaves text of nine or more characters alone. */
  function PadStart(t: Text): (r: Text)
    ensures |r| == if |t| >= PLACES then |t| else PLACES
    ensures r[|r| - |t|..] == t
  {
    if |t| >= PLACES then t else Zeros(PLACES - |t|) + t
  }

  /** A text before and after its first dot. */
  datatype Parts = Parts(whole: Text, fraction: Option<Text>)

  function SplitAtDot(t: Text): Parts {
    var dot := FirstDot(t);
    if dot == |t| then Parts(t, None) else Parts(t[..dot], Some(t[dot + 1..]))
  }

  /** At least one digit, and one to nine digits after a dot. */
  function Amount(parts: Parts): Option<nat> {
    if parts.whole == [] || !AllDigits(parts.whole) then None
    else
      match parts.fraction
      case None => Some(DigitsValue(parts.whole) * NANOMINA_PER_MINA)
      case Some(fraction) =>
        if 1 <= |fraction| <= PLACES && AllDigits(fraction) then
          Some(DigitsValue(parts.whole) * NANOMINA_PER_MINA + DigitsValue(PadEnd(fraction)))
        else None
  }

  /** parseMinaToNanomina; None where it throws. */
  function Parse(value: Text): Option<nat> {
    Amount(SplitAtDot(Trim(value)))
  }

  /** The decimal text of a bigint. */
  function SignedText(n: int): Text {
    if n < 0 then [MINUS] + DecimalText(-n) else DecimalText(n)
  }

  /** bigint quotient and remainder truncate toward zero. */
  function WholeMina(value: int): int {
    if value >= 0 then value / NANOMINA_PER_MINA else -(-value / NANOMINA_PER_MINA)
  }

  function RestNanomina(value: int): int {
    value - WholeMina(value) * NANOMINA_PER_MINA
  }

  /** Whole and rest make up the amount; the rest is less than one MINA, on the side of the amount. */
  lemma PartsTruncate(value: int)
    ensures WholeMina(value) * 1_000_000_000 + RestNanomina(value) == value
    ensures -1_000_000_000 < RestNanomina(value) < 1_000_000_000
    ensures RestNanomina(value) != 0 ==> (RestNanomina(value) > 0 <==> value > 0)
  {
  }

  /** formatNanomina. */
  function Format(value: int): Text {
    Assemble(SignedText(WholeMina(value)), SignedText(RestNanomina(value)))
  }

  function Assemble(whole: Text, rest: Text): Text {
    whole + [DOT] + PadStart(rest)
  }

  /** A numeral without leading zeros, a dot and nine digits. */
  predicate IsCanonicalAmount(t: Text) {
    |t| > PLACES + 1
    && IsNonnegativeDecimal(t[..|t| - PLACES - 1]) && t[|t| - PLACES - 1] == DOT && AllDigits(t[|t| - PLACES..])
  }

  /** A text that starts and ends with no whitespace splits at the dot after its digits. */
  lemma SplitOfParts(t: Text, whole: Text, fraction: Text)
    requires t == whole + [DOT] + fraction && AllDigits(whole) && |whole| > 0
    requires |fraction| > 0 && !IsWhitespace(fraction[|fraction| - 1])
    ensures SplitAtDot(Trim(t)) == Parts(whole, Some(fraction))
  {
    assert !IsWhitespace(t[0]) && t[|t| - 1] == fraction[|fraction| - 1];
    FirstDotIs(t, |whole|);
    assert t[..|whole|] == whole && t[|whole| + 1..] == fraction;
  }

  lemma ParseOfParts(t: Text, whole: Text, fraction: Text) returns (r: Option<nat>)
    requires t == whole + [DOT] + fraction && AllDigits(whole) && |whole| > 0
    requires |fraction| > 0 && !IsWhitespace(fraction[|fraction| - 1])
    ensures r == Parse(t) == Amount(Parts(whole, Some(fraction)))
  {
    r := Parse(t);
    SplitOfParts(t, whole, fraction);
  }

  /** What a whole numeral and nine places are worth. */
  predicate Worth(w: Text, f: Text, value: nat) {
    && IsNonnegativeDecimal(w) && AllDigits(f) && |f| == PLACES
    && value == DigitsValue(w) * NANOMINA_PER_MINA + DigitsValue(f)
  }

  lemma NinePlacesAmount(w: Text, f: Text, value: nat)
    requires Worth(w, f, value)
    ensures Amount(Parts(w, Some(f))) == Some(value)
  {
    NineDigitsAreTheirOwnPadding(f);
  }

  lemma NinePlacesParse(t: Text, w: Text, f: Text, value: nat)
    requires t == w + [DOT] + f && Worth(w, f, value)
    ensures Parse(t) == Some(value) && IsCanonicalAmount(t)
  {
    var r := ParseOfParts(t, w, f);
    NinePlacesAmount(w, f, value);
    CanonicalOfParts(t, w, f);
  }

  lemma NinePlacesWorth(t: Text, w: Text, f: Text) returns (value: nat)
    requires t == w + [DOT] + f && IsNonnegativeDecimal(w) && AllDigits(f) && |f| == PLACES
    ensures Worth(w, f, value) && Parse(t) == Some(value)
  {
    value := DigitsValue(w) * NANOMINA_PER_MINA + DigitsValue(f);
    NinePlacesParse(t, w, f, value);
  }

  lemma NineDigitsAreTheirOwnPadding(t: Text)
    requires AllDigits(t) && |t| == PLACES
    ensures PadEnd(t) == t
  {
  }

  lemma ShortNumeral(n: nat)
    requires n < NANOMINA_PER_MINA
    ensures |DecimalText(n)| <= PLACES
  {
    var t := DecimalText(n);
    TenToTheTenth();
    if |t| > 1 {
      LongNumbersAreLarge(t);
      ShortWhenSmall(|t| - 1);
    }
  }

  lemma ShortWhenSmall(m: nat)
    requires Pow10(m) < NANOMINA_PER_MINA
    ensures m < PLACES
  {
    TenToTheTenth();
    if m >= PLACES {
      Pow10Grows(PLACES, m);
    }
  }

  lemma PadStartIsZeros(t: Text)
    requires |t| <= PLACES
    ensures PadStart(t) == Zeros(PLACES - |t|) + t
  {
    assert |t| == PLACES ==> Zeros(0) + t == t;
  }

  lemma PaddedText(t: Text)
    requires AllDigits(t) && |t| <= PLACES
    ensures |PadStart(t)| == PLACES && AllDigits(PadStart(t)) && DigitsValue(PadStart(t)) == DigitsValue(t)
  {
    PadStartIsZeros(t);
    ValueOfConcat(Zeros(PLACES - |t|), t);
  }

  lemma PaddedNumeral(n: nat) returns (f: Text)
    requires n < NANOMINA_PER_MINA
    ensures f == PadStart(DecimalText(n)) && |f| == PLACES && AllDigits(f) && DigitsValue(f) == n
  {
    ShortNumeral(n);
    PaddedText(DecimalText(n));
    f := PadStart(DecimalText(n));
  }

  lemma PartsOfNonnegative(value: nat)
    ensures WholeMina(value) >= 0 && 0 <= RestNanomina(value) < NANOMINA_PER_MINA
    ensures WholeMina(value) * NANOMINA_PER_MINA + RestNanomina(value) == value
  {
  }

  /** The two numerals of a printed nonnegative amount. */
  lemma FormatParts(value: nat) returns (t: Text, w: Text, f: Text)
    ensures t == Format(value) && t == w + [DOT] + f && Worth(w, f, value)
  {
    PartsOfNonnegative(value);
    w := DecimalText(WholeMina(value));
    f := PaddedNumeral(RestNanomina(value));
    t := Format(value);
  }

  lemma CanonicalOfParts(t: Text, w: Text, f: Text)
    requires t == w + [DOT] + f && IsNonnegativeDecimal(w) && AllDigits(f) && |f| == PLACES
    ensures IsCanonicalAmount(t)
  {
    assert t[..|t| - PLACES - 1] == w && t[|t| - PLACES..] == f;
  }

  /** Every nonnegative amount, of any size, survives printing and parsing. */
  lemma PrintedAmountsParse(value: nat) returns (t: Text)
    ensures t == Format(value) && Parse(t) == Some(value) && IsCanonicalAmount(t)
  {
    var w, f;
    t, w, f := FormatParts(value);
    NinePlacesParse(t, w, f, value);
  }

  lemma MinusIsNoDigit(t: Text, i: nat)
    requires i < |t| && t[i] == MINUS
    ensures !AllDigits(t)
  {
  }

  /** A negative amount prints as text that does not parse. */
  lemma NegativeAmountsDoNotParse(value: int) returns (t: Text)
    requires value < 0
    ensures t == Format(value) && Parse(t).None?
  {
    var w, s;
    t, w, s := NegativeParts(value);
    var f, k := PaddingKeepsEnds(s);
    if w[0] == MINUS {
      LeadingMinus(t, w, f);
    } else {
      MinusInRest(t, w, f, k);
    }
  }

  lemma PartsOfNegative(value: int)
    requires value < 0
    ensures WholeMina(value) < 0 || (WholeMina(value) == 0 && RestNanomina(value) < 0)
  {
  }

  lemma NegativeParts(value: int) returns (t: Text, w: Text, s: Text)
    requires value < 0
    ensures t == Format(value) && t == Assemble(w, s)
    ensures |w| > 0 && |s| > 0 && IsDigit(s[|s| - 1])
    ensures w[0] == MINUS || (IsNonnegativeDecimal(w) && s[0] == MINUS)
  {
    PartsOfNegative(value);
    w := SignedNumeral(WholeMina(value));
    s := SignedNumeral(RestNanomina(value));
    t := Format(value);
  }

  lemma PaddingKeepsEnds(s: Text) returns (f: Text, k: nat)
    requires |s| > 0
    ensures f == PadStart(s) && |f| > 0 && f[|f| - 1] == s[|s| - 1]
    ensures k < |f| && f[k] == s[0]
  {
    f := PadStart(s);
    k := |f| - |s|;
    assert f[k..][0] == s[0] && f[k..][|s| - 1] == s[|s| - 1];
  }

  lemma SignedNumeral(n: int) returns (t: Text)
    ensures t == SignedText(n) && |t| > 0 && IsDigit(t[|t| - 1])
    ensures n < 0 ==> t[0] == MINUS
    ensures n >= 0 ==> IsNonnegativeDecimal(t)
  {
    t := SignedText(n);
  }

  lemma LeadingMinus(t: Text, w: Text, f: Text)
    requires t == w + [DOT] + f && |w| > 0 && w[0] == MINUS && |f| > 0 && IsDigit(f[|f| - 1])
    ensures Parse(t).None?
  {
    assert t[0] == MINUS && t[|t| - 1] == f[|f| - 1];
    assert Trim(t) == t;
    var whole := SplitAtDot(t).whole;
    assert FirstDot(t) > 0;
    MinusIsNoDigit(whole, 0);
  }

  lemma MinusInRest(t: Text, w: Text, f: Text, k: nat)
    requires t == w + [DOT] + f && IsNonnegativeDecimal(w) && k < |f| && f[k] == MINUS && IsDigit(f[|f| - 1])
    ensures Parse(t).None?
  {
    var r := ParseOfParts(t, w, f);
    MinusIsNoAmount(w, f, k);
  }

  lemma MinusIsNoAmount(w: Text, f: Text, k: nat)
    requires k < |f| && f[k] == MINUS
    ensures Amount(Parts(w, Some(f))).None?
  {
    MinusIsNoDigit(f, k);
  }

  /** Printing and parsing is the identity exactly on the nonnegative amounts. */
  lemma RoundTripExactlyWhenNonnegative(value: int)
    ensures Parse(Format(value)) == if value >= 0 then Some(value as nat) else None
  {
    if value >= 0 {
      var t := PrintedAmountsParse(value);
    } else {
      var t := NegativeAmountsDoNotParse(value);
    }
  }

  lemma {:induction false} SameLengthSameValue(a: Text, b: Text)
    requires AllDigits(a) && AllDigits(b) && |a| == |b| && DigitsValue(a) == DigitsValue(b)
    ensures a == b
  {
    if |a| > 0 {
      var n := |a| - 1;
      SameLengthSameValue(a[..n], b[..n]);
      assert a == a[..n] + [a[n]] && b == b[..n] + [b[n]];
    }
  }

  /** Printing what was parsed gives the canonical nine-place text of the same amount. */
  lemma ParsedAmountsPrintCanonically(t: Text)
    requires Parse(t).Some?
    ensures
      var printed := Format(Parse(t).value);
      IsCanonicalAmount(printed) && Parse(printed) == Parse(t) && (IsCanonicalAmount(t) ==> printed == t)
  {
    var printed := PrintedAmountsParse(Parse(t).value);
    if IsCanonicalAmount(t) {
      CanonicalAmountsAreUnique(t, printed);
    }
  }

  lemma SameDigits(v: nat, f: nat, w: nat, g: nat)
    requires f < NANOMINA_PER_MINA && g < NANOMINA_PER_MINA && v * NANOMINA_PER_MINA + f == w * NANOMINA_PER_MINA + g
    ensures v == w && f == g
  {
  }

  /** An amount has one canonical text. */
  lemma CanonicalAmountsAreUnique(s: Text, t: Text)
    requires IsCanonicalAmount(s) && IsCanonicalAmount(t) && Parse(s) == Parse(t)
    ensures s == t
  {
    var v, f, x := CanonicalParts(s);
    var w, g, y := CanonicalParts(t);
    SamePartsSameText(v, f, w, g, x);
  }

  lemma CanonicalParts(t: Text) returns (w: Text, f: Text, value: nat)
    requires IsCanonicalAmount(t)
    ensures t == w + [DOT] + f && Worth(w, f, value) && Parse(t) == Some(value)
  {
    w, f := t[..|t| - PLACES - 1], t[|t| - PLACES..];
    assert t == w + [DOT] + f;
    value := NinePlacesWorth(t, w, f);
  }

  lemma SamePartsSameText(v: Text, f: Text, w: Text, g: Text, value: nat)
    requires Worth(v, f, value) && Worth(w, g, value)
    ensures v == w && f == g
  {
    NinePlacesBound(f);
    NinePlacesBound(g);
    SameDigits(DigitsValue(v), DigitsValue(f), DigitsValue(w), DigitsValue(g));
    SameNumeral(v, w);
    SameLengthSameValue(f, g);
  }

  lemma SameNumeral(v: Text, w: Text)
    requires IsNonnegativeDecimal(v) && IsNonnegativeDecimal(w) && DigitsValue(v) == DigitsValue(w)
    ensures v == w
  {
    DecimalTextIsCanonical(v);
    DecimalTextIsCanonical(w);
  }

  lemma NinePlacesBound(f: Text)
    requires AllDigits(f) && |f| == PLACES
    ensures DigitsValue(f) < NANOMINA_PER_MINA
  {
    ValueBound(f);
    TenToTheTenth();
  }

  // ---------------------------------------------------------------- what is accepted

  predicate IsFraction(f: Text) {
    1 <= |f| <= PLACES && AllDigits(f)
  }

  /** The pattern: digits, and optionally a dot with one to nine more. */
  ghost predicate IsAmountText(t: Text) {
    || (|t| > 0 && AllDigits(t))
    || exists w: Text, f: Text :: IsDecimal(t, w, f)
  }

  predicate IsDecimal(t: Text, w: Text, f: Text) {
    |w| > 0 && AllDigits(w) && IsFraction(f) && t == w + [DOT] + f
  }

  lemma {:induction false} DotAtFirstDot(t: Text)
    ensures FirstDot(t) < |t| ==> t[FirstDot(t)] == DOT
    ensures AllDigits(t) ==> FirstDot(t) == |t|
  {
    if |t| > 0 && t[0] != DOT {
      DotAtFirstDot(t[1..]);
    }
  }

  /** Parsing accepts exactly the pattern, after trimming. */
  lemma ParsesExactlyThePattern(value: Text)
    ensures Parse(value).Some? <==> IsAmountText(Trim(value))
  {
    var t := Trim(value);
    SplitsExactlyThePattern(t);
  }

  lemma SplitsExactlyThePattern(t: Text)
    ensures Amount(SplitAtDot(t)).Some? <==> IsAmountText(t)
  {
    var dot := FirstDot(t);
    DotAtFirstDot(t);
    if Amount(SplitAtDot(t)).Some? && dot < |t| {
      assert t == t[..dot] + [DOT] + t[dot + 1..];
      assert IsDecimal(t, t[..dot], t[dot + 1..]);
    }
    if w: Text, f: Text :| IsDecimal(t, w, f) {
      FirstDotIs(t, |w|);
      assert t[..|w|] == w && t[|w| + 1..] == f;
    }
  }
}
