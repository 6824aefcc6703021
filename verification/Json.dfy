/**
 The canonical JSON text used for event identities and immutable-payload checks.
 stableJson sorts the keys of every object; strings are escaped as
 JSON.stringify does (section 7 of RFC 8259, with lone surrogates escaped).
 */
module Json {
  import opened Texts

  datatype Member = Member(key: Text, value: Value)

  /**
   A JavaScript value as stableJson sees it. Int holds the numbers that print as
   plain integers; Float holds the printed form of any other finite number.
   */
  datatype Value =
    | Undefined
    | Null
    | Bool(b: bool)
    | Int(n: int)
    | Float(lexeme: Text)
    | Str(s: Text)
    | Arr(items: seq<Value>)
    | Obj(members: seq<Member>)

  const MAX_SAFE_INTEGER := 9_007_199_254_740_991

  predicate IsNumberUnit(c: CodeUnit) {
    IsDigit(c) || c == 43 || c == 45 || c == 46 || c == 101
  }

  /** The text Number.prototype.toString gives such an integer. */
  function IntText(n: int): (t: Text)
    ensures |t| > 0 && (IsDigit(t[0]) || t[0] == 45)
    ensures forall i | 0 <= i < |t| :: IsNumberUnit(t[i])
  {
    if n < 0 then [45] + DecimalText(-n) else DecimalText(n)
  }

  predicate IsFloatLexeme(t: Text) {
    && |t| > 0
    && (IsDigit(t[0]) || t[0] == 45)
    && (forall i | 0 <= i < |t| :: IsNumberUnit(t[i]))
    && !IsIntLexeme(t)
  }

  predicate IsIntLexeme(t: Text) {
    || IsNonnegativeDecimal(t)
    || (|t| > 1 && t[0] == 45 && IsNonnegativeDecimal(t[1..]))
  }

  predicate DistinctKeys(ms: seq<Member>) {
    forall i, j | 0 <= i < j < |ms| :: ms[i].key != ms[j].key
  }

  /**
   Values that a JSON document can bring in: no object has a key twice and no array holds
   undefined, which join would print as nothing.
   */
  predicate WellFormed(v: Value) {
    match v
    case Float(lexeme) => IsFloatLexeme(lexeme)
    case Arr(items) => forall i | 0 <= i < |items| :: !items[i].Undefined? && WellFormed(items[i])
    case Obj(members) => DistinctKeys(members) && forall i | 0 <= i < |members| :: WellFormed(members[i].value)
    case _ => true
  }

  ghost predicate WellFormedItems(items: seq<Value>) {
    forall i | 0 <= i < |items| :: !items[i].Undefined? && WellFormed(items[i])
  }

  ghost predicate WellFormedMembers(ms: seq<Member>) {
    forall i | 0 <= i < |ms| :: WellFormed(ms[i].value)
  }

  /** Equality up to the order of object keys, stated without any sorting. */
  ghost predicate Same(a: Value, b: Value) {
    match a
    case Arr(xs) =>
      b.Arr? && |xs| == |b.items| && forall i | 0 <= i < |xs| :: Same(xs[i], b.items[i])
    case Obj(ms) =>
      && b.Obj?
      && KeySet(ms) == KeySet(b.members)
      && forall i, j | 0 <= i < |ms| && 0 <= j < |b.members| && ms[i].key == b.members[j].key ::
           Same(ms[i].value, b.members[j].value)
    case _ => a == b
  }

  ghost function KeySet(ms: seq<Member>): set<Text> {
    set i | 0 <= i < |ms| :: ms[i].key
  }

  // ---------------------------------------------------------------- sorting

  function InsertText(t: Text, ts: seq<Text>): seq<Text> {
    if |ts| == 0 || !Less(ts[0], t) then [t] + ts else [ts[0]] + InsertText(t, ts[1..])
  }

  /** Array.prototype.sort without a comparator. */
  function SortTexts(ts: seq<Text>): seq<Text> {
    if |ts| == 0 then [] else InsertText(ts[0], SortTexts(ts[1..]))
  }

  ghost predicate Increasing(ts: seq<Text>) {
    forall i, j | 0 <= i < j < |ts| :: Less(ts[i], ts[j])
  }

  ghost predicate Distinct(ts: seq<Text>) {
    forall i, j | 0 <= i < j < |ts| :: ts[i] != ts[j]
  }

  lemma {:induction false} InsertKeepsElements(t: Text, ts: seq<Text>)
    ensures multiset(InsertText(t, ts)) == multiset{t} + multiset(ts)
  {
    if |ts| > 0 && Less(ts[0], t) {
      InsertKeepsElements(t, ts[1..]);
      assert ts == [ts[0]] + ts[1..];
    }
  }

  lemma {:induction false} InsertKeepsOrder(t: Text, ts: seq<Text>)
    requires Increasing(ts) && t !in ts
    ensures Increasing(InsertText(t, ts))
  {
    if |ts| == 0 {
    } else if !Less(ts[0], t) {
      LessIsStrictTotal(ts[0], t);
      forall j | 0 < j < |ts| ensures Less(t, ts[j]) {
        LessIsTransitive(t, ts[0], ts[j]);
      }
    } else {
      InsertKeepsOrder(t, ts[1..]);
      InsertKeepsElements(t, ts[1..]);
      var rest := InsertText(t, ts[1..]);
      forall j | 0 <= j < |rest| ensures Less(ts[0], rest[j]) {
        assert rest[j] in multiset(rest);
      }
    }
  }

  lemma {:induction false} SortIsPermutation(ts: seq<Text>)
    ensures multiset(SortTexts(ts)) == multiset(ts)
  {
    if |ts| > 0 {
      SortIsPermutation(ts[1..]);
      InsertKeepsElements(ts[0], SortTexts(ts[1..]));
      assert ts == [ts[0]] + ts[1..];
    }
  }

  lemma SortKeepsElements(ts: seq<Text>)
    ensures multiset(SortTexts(ts)) == multiset(ts)
    ensures forall t :: t in SortTexts(ts) <==> t in ts
  {
    SortIsPermutation(ts);
    var sorted := SortTexts(ts);
    assert forall t :: t in sorted <==> t in multiset(sorted);
    assert forall t :: t in ts <==> t in multiset(ts);
  }

  lemma {:induction false} SortIsIncreasing(ts: seq<Text>)
    requires Distinct(ts)
    ensures Increasing(SortTexts(ts))
  {
    if |ts| > 0 {
      SortIsIncreasing(ts[1..]);
      SortKeepsElements(ts[1..]);
      InsertKeepsOrder(ts[0], SortTexts(ts[1..]));
    }
  }

  /** Two increasing lists with the same elements are the same list. */
  lemma {:induction false} IncreasingIsUnique(a: seq<Text>, b: seq<Text>)
    requires Increasing(a) && Increasing(b)
    requires forall t :: t in a <==> t in b
    ensures a == b
  {
    assert a != [] ==> a[0] in b;
    assert b != [] ==> b[0] in a;
    if |a| > 0 {
      if a[0] != b[0] {
        LessIsStrictTotal(a[0], b[0]);
        assert false;
      }
      forall t ensures t in a[1..] <==> t in b[1..] {
        LessIsStrictTotal(a[0], a[0]);
        assert t in a[1..] ==> t in a && t != a[0];
        assert t in b[1..] ==> t in b && t != b[0];
      }
      IncreasingIsUnique(a[1..], b[1..]);
    }
  }

  // ---------------------------------------------------------------- canonical form

  function Keys(ms: seq<Member>): (ks: seq<Text>)
    ensures |ks| == |ms|
    ensures forall i | 0 <= i < |ms| :: ks[i] == ms[i].key
  {
    seq(|ms|, i requires 0 <= i < |ms| => ms[i].key)
  }

  function SortedKeys(ms: seq<Member>): (ks: seq<Text>)
    ensures forall k :: k in ks <==> k in Keys(ms)
  {
    SortKeepsElements(Keys(ms));
    SortTexts(Keys(ms))
  }

  /** Where record[key] is found. */
  function IndexOfKey(ms: seq<Member>, key: Text): (i: nat)
    requires key in Keys(ms)
    ensures i < |ms| && ms[i].key == key
  {
    if ms[0].key == key then 0
    else
      assert Keys(ms)[1..] == Keys(ms[1..]);
      1 + IndexOfKey(ms[1..], key)
  }

  /** The value with the keys of every object in sorted order. */
  function Canonical(v: Value): Value
    decreases v, 0
  {
    match v
    case Arr(items) => Arr(CanonicalItems(items))
    case Obj(members) => Obj(CanonicalMembers(members, SortedKeys(members)))
    case _ => v
  }

  function CanonicalItems(items: seq<Value>): (r: seq<Value>)
    ensures |r| == |items|
    ensures forall i | 0 <= i < |items| :: r[i] == Canonical(items[i])
    decreases items, 0
  {
    if |items| == 0 then [] else [Canonical(items[0])] + CanonicalItems(items[1..])
  }

  function CanonicalMembers(ms: seq<Member>, ks: seq<Text>): (r: seq<Member>)
    requires forall k | k in ks :: k in Keys(ms)
    ensures |r| == |ks|
    ensures forall i | 0 <= i < |ks| :: r[i] == Member(ks[i], Canonical(ms[IndexOfKey(ms, ks[i])].value))
    decreases ms, |ks|
  {
    if |ks| == 0 then []
    else [Member(ks[0], Canonical(ms[IndexOfKey(ms, ks[0])].value))] + CanonicalMembers(ms, ks[1..])
  }

  lemma SortedKeysAreIncreasing(ms: seq<Member>)
    requires DistinctKeys(ms)
    ensures Increasing(SortedKeys(ms)) && Distinct(SortedKeys(ms))
  {
    var ks := SortedKeys(ms);
    SortIsIncreasing(Keys(ms));
    forall i, j | 0 <= i < j < |ks| ensures ks[i] != ks[j] {
      LessIsStrictTotal(ks[i], ks[j]);
    }
  }

  lemma {:induction false} CanonicalIsWellFormed(v: Value)
    requires WellFormed(v)
    ensures WellFormed(Canonical(v))
  {
    match v
    case Arr(items) =>
      forall i | 0 <= i < |items| ensures WellFormed(Canonical(items[i])) {
        CanonicalIsWellFormed(items[i]);
      }
    case Obj(ms) =>
      SortedKeysAreIncreasing(ms);
      forall i | 0 <= i < |ms| ensures WellFormed(Canonical(ms[i].value)) {
        CanonicalIsWellFormed(ms[i].value);
      }
    case _ =>
  }

  /** Canonical forms agree exactly on values that are equal up to key order. */
  lemma {:induction false} CanonicalDecidesSame(a: Value, b: Value)
    requires WellFormed(a) && WellFormed(b)
    ensures Canonical(a) == Canonical(b) <==> Same(a, b)
    decreases a, 1
  {
    if a.Arr? && b.Arr? {
      CanonicalDecidesSameItems(a.items, b.items);
    } else if a.Obj? && b.Obj? {
      CanonicalDecidesSameMembers(a.members, b.members);
    }
  }

  lemma {:induction false} CanonicalDecidesSameItems(xs: seq<Value>, ys: seq<Value>)
    requires WellFormed(Arr(xs)) && WellFormed(Arr(ys))
    ensures CanonicalItems(xs) == CanonicalItems(ys) <==> Same(Arr(xs), Arr(ys))
    decreases xs, 0
  {
    var cs, ds := CanonicalItems(xs), CanonicalItems(ys);
    if |xs| == |ys| {
      forall i | 0 <= i < |xs|
        ensures cs[i] == ds[i] <==> Same(xs[i], ys[i])
      {
        CanonicalDecidesSame(xs[i], ys[i]);
      }
      assert (forall i | 0 <= i < |xs| :: cs[i] == ds[i]) <==> cs == ds;
    }
  }

  lemma {:induction false} CanonicalDecidesSameMembers(ms: seq<Member>, ns: seq<Member>)
    requires WellFormed(Obj(ms)) && WellFormed(Obj(ns))
    ensures Canonical(Obj(ms)) == Canonical(Obj(ns)) <==> Same(Obj(ms), Obj(ns))
    decreases ms, 0
  {
    forall i, j | 0 <= i < |ms| && 0 <= j < |ns| && ms[i].key == ns[j].key
      ensures Canonical(ms[i].value) == Canonical(ns[j].value) <==> Same(ms[i].value, ns[j].value)
    {
      CanonicalDecidesSame(ms[i].value, ns[j].value);
    }
    CanonicalMembersDecide(ms, ns);
  }

  ghost predicate SameCanonicalValues(ms: seq<Member>, ns: seq<Member>) {
    forall i, j | 0 <= i < |ms| && 0 <= j < |ns| && ms[i].key == ns[j].key ::
      Canonical(ms[i].value) == Canonical(ns[j].value)
  }

  lemma CanonicalMembersDecide(ms: seq<Member>, ns: seq<Member>)
    requires DistinctKeys(ms) && DistinctKeys(ns)
    ensures Canonical(Obj(ms)) == Canonical(Obj(ns)) <==> KeySet(ms) == KeySet(ns) && SameCanonicalValues(ms, ns)
  {
    if Canonical(Obj(ms)) == Canonical(Obj(ns)) { SameCanonicalMembers(ms, ns); }
    if KeySet(ms) == KeySet(ns) && SameCanonicalValues(ms, ns) { SortedKeysDecide(ms, ns); }
  }

  lemma SameCanonicalMembers(ms: seq<Member>, ns: seq<Member>)
    requires DistinctKeys(ms) && DistinctKeys(ns) && Canonical(Obj(ms)) == Canonical(Obj(ns))
    ensures KeySet(ms) == KeySet(ns) && SameCanonicalValues(ms, ns)
  {
    var ks, ls := SortedKeys(ms), SortedKeys(ns);
    var cs, ds := CanonicalMembers(ms, ks), CanonicalMembers(ns, ls);
    assert forall i | 0 <= i < |ks| :: cs[i].key == ks[i] && ds[i].key == ls[i];
    assert ks == ls;
    SortedKeysDecide(ms, ns);
    SortedKeysAreIncreasing(ms);
    forall i, j | 0 <= i < |ms| && 0 <= j < |ns| && ms[i].key == ns[j].key
      ensures Canonical(ms[i].value) == Canonical(ns[j].value)
    {
      CanonicalMemberOf(ms, i);
      CanonicalMemberOf(ns, j);
    }
  }

  /** The sorted key list stands for the key set. */
  lemma SortedKeysDecide(ms: seq<Member>, ns: seq<Member>)
    requires DistinctKeys(ms) && DistinctKeys(ns)
    ensures SortedKeys(ms) == SortedKeys(ns) <==> KeySet(ms) == KeySet(ns)
  {
    assert forall k :: k in KeySet(ms) <==> k in Keys(ms);
    assert forall k :: k in KeySet(ns) <==> k in Keys(ns);
    if KeySet(ms) == KeySet(ns) {
      SortedKeysAreIncreasing(ms);
      SortedKeysAreIncreasing(ns);
      IncreasingIsUnique(SortedKeys(ms), SortedKeys(ns));
    }
  }

  /** Every member of an object occurs in its canonical form. */
  lemma CanonicalMemberOf(ms: seq<Member>, i: nat)
    requires DistinctKeys(ms) && i < |ms|
    ensures exists p | 0 <= p < |SortedKeys(ms)| ::
      && SortedKeys(ms)[p] == ms[i].key
      && CanonicalMembers(ms, SortedKeys(ms))[p].value == Canonical(ms[i].value)
  {
    var ks := SortedKeys(ms);
    assert Keys(ms)[i] in ks;
    var p :| 0 <= p < |ks| && ks[p] == ms[i].key;
    assert IndexOfKey(ms, ks[p]) == i;
  }

  // ---------------------------------------------------------------- text

  const QUOTE: CodeUnit := 34
  const COMMA: CodeUnit := 44
  const COLON: CodeUnit := 58
  const OPEN_BRACKET: CodeUnit := 91
  const BACKSLASH: CodeUnit := 92
  const CLOSE_BRACKET: CodeUnit := 93
  const OPEN_BRACE: CodeUnit := 123
  const CLOSE_BRACE: CodeUnit := 125

  predicate IsHighSurrogate(c: CodeUnit) { 0xD800 <= c <= 0xDBFF }

  predicate IsLowSurrogate(c: CodeUnit) { 0xDC00 <= c <= 0xDFFF }

  function HexDigit(d: nat): CodeUnit
    requires d < 16
  {
    if d < 10 then 48 + d else 87 + d
  }

  /** The escape of a unit that is not part of a surrogate pair. */
  function EscapeUnit(c: CodeUnit): (t: Text)
    ensures |t| > 0
  {
    if c == QUOTE || c == BACKSLASH then [BACKSLASH, c]
    else if c == 8 then [BACKSLASH, 98]
    else if c == 9 then [BACKSLASH, 116]
    else if c == 10 then [BACKSLASH, 110]
    else if c == 12 then [BACKSLASH, 102]
    else if c == 13 then [BACKSLASH, 114]
    else if c < 32 || IsHighSurrogate(c) || IsLowSurrogate(c) then
      [BACKSLASH, 117, HexDigit(c / 4096), HexDigit(c / 256 % 16), HexDigit(c / 16 % 16), HexDigit(c % 16)]
    else [c]
  }

  predicate StartsWithPair(s: Text) {
    |s| > 1 && IsHighSurrogate(s[0]) && IsLowSurrogate(s[1])
  }

  function Escape(s: Text): Text {
    if |s| == 0 then []
    else if StartsWithPair(s) then s[..2] + Escape(s[2..])
    else EscapeUnit(s[0]) + Escape(s[1..])
  }

  function Quote(s: Text): Text {
    [QUOTE] + (Escape(s) + [QUOTE])
  }

  const UNDEFINED_TEXT: Text := [117, 110, 100, 101, 102, 105, 110, 101, 100]
  const NULL_TEXT: Text := [110, 117, 108, 108]
  const TRUE_TEXT: Text := [116, 114, 117, 101]
  const FALSE_TEXT: Text := [102, 97, 108, 115, 101]

  /** JSON.stringify without white space, keeping the key order of the value. */
  function Print(v: Value): (t: Text)
    decreases v, 0
  {
    match v
    case Undefined => UNDEFINED_TEXT
    case Null => NULL_TEXT
    case Bool(b) => if b then TRUE_TEXT else FALSE_TEXT
    case Int(n) => IntText(n)
    case Float(lexeme) => lexeme
    case Str(s) => Quote(s)
    case Arr(items) =>
      [OPEN_BRACKET] + ((if |items| == 0 then [] else Print(items[0]) + PrintItems(items[1..])) + [CLOSE_BRACKET])
    case Obj(ms) =>
      [OPEN_BRACE] + ((if |ms| == 0 then [] else PrintMember(ms[0]) + PrintMembers(ms[1..])) + [CLOSE_BRACE])
  }

  /** The items after the first, each behind a comma. */
  function PrintItems(items: seq<Value>): Text
    decreases items, 0
  {
    if |items| == 0 then [] else [COMMA] + (Print(items[0]) + PrintItems(items[1..]))
  }

  function PrintMember(m: Member): Text
    decreases m, 0
  {
    Quote(m.key) + ([COLON] + Print(m.value))
  }

  function PrintMembers(ms: seq<Member>): Text
    decreases ms, 0
  {
    if |ms| == 0 then [] else [COMMA] + (PrintMember(ms[0]) + PrintMembers(ms[1..]))
  }

  /** stableJson: the text of a value with the keys of every object sorted. */
  function StableJson(v: Value): Text
    decreases v, 0
  {
    match v
    case Arr(items) =>
      [OPEN_BRACKET] + ((if |items| == 0 then [] else StableJson(items[0]) + StableItems(items[1..])) + [CLOSE_BRACKET])
    case Obj(ms) =>
      var ks := SortedKeys(ms);
      [OPEN_BRACE] + ((if |ks| == 0 then [] else StableMember(ms, ks[0]) + StableMembers(ms, ks[1..])) + [CLOSE_BRACE])
    case _ => Print(v)
  }

  function StableItems(items: seq<Value>): Text
    decreases items, 0
  {
    if |items| == 0 then [] else [COMMA] + (StableJson(items[0]) + StableItems(items[1..]))
  }

  function StableMember(ms: seq<Member>, k: Text): Text
    requires k in Keys(ms)
    decreases ms, 0
  {
    Quote(k) + ([COLON] + StableJson(ms[IndexOfKey(ms, k)].value))
  }

  function StableMembers(ms: seq<Member>, ks: seq<Text>): Text
    requires forall k | k in ks :: k in Keys(ms)
    decreases ms, 1, |ks|
  {
    if |ks| == 0 then [] else [COMMA] + (StableMember(ms, ks[0]) + StableMembers(ms, ks[1..]))
  }

  lemma {:induction false} StableJsonPrintsCanonical(v: Value)
    ensures StableJson(v) == Print(Canonical(v))
    decreases v, 0
  {
    match v
    case Arr(items) =>
      if |items| > 0 {
        StableJsonPrintsCanonical(items[0]);
        StableItemsPrintCanonical(items[1..]);
        assert CanonicalItems(items)[1..] == CanonicalItems(items[1..]);
      }
    case Obj(ms) =>
      var ks := SortedKeys(ms);
      if |ks| > 0 {
        StableJsonPrintsCanonical(ms[IndexOfKey(ms, ks[0])].value);
        StableMembersPrintCanonical(ms, ks[1..]);
        assert CanonicalMembers(ms, ks)[1..] == CanonicalMembers(ms, ks[1..]);
      }
    case _ =>
  }

  lemma {:induction false} StableItemsPrintCanonical(items: seq<Value>)
    ensures StableItems(items) == PrintItems(CanonicalItems(items))
    decreases items, 0
  {
    if |items| > 0 {
      StableJsonPrintsCanonical(items[0]);
      StableItemsPrintCanonical(items[1..]);
      assert CanonicalItems(items)[1..] == CanonicalItems(items[1..]);
    }
  }

  lemma {:induction false} StableMembersPrintCanonical(ms: seq<Member>, ks: seq<Text>)
    requires forall k | k in ks :: k in Keys(ms)
    ensures StableMembers(ms, ks) == PrintMembers(CanonicalMembers(ms, ks))
    decreases ms, |ks|
  {
    if |ks| > 0 {
      StableJsonPrintsCanonical(ms[IndexOfKey(ms, ks[0])].value);
      StableMembersPrintCanonical(ms, ks[1..]);
      assert CanonicalMembers(ms, ks)[1..] == CanonicalMembers(ms, ks[1..]);
    }
  }

  // ---------------------------------------------------------------- injectivity

  /** What may follow a printed value: nothing, or a delimiter. */
  predicate Delimited(t: Text) {
    t == [] || t[0] == COMMA || t[0] == CLOSE_BRACKET || t[0] == CLOSE_BRACE
  }

  function UnitAt(t: Text, i: nat): int {
    if i < |t| then t[i] else -1
  }

  lemma Assoc(a: Text, b: Text, c: Text)
    ensures (a + b) + c == a + (b + c)
  {
  }

  lemma Split(a: Text, b: Text, x: Text, y: Text)
    requires |a| == |b| && a + x == b + y
    ensures a == b && x == y
  {
    assert a == (a + x)[..|a|] && b == (b + y)[..|b|];
    assert x == (a + x)[|a|..] && y == (b + y)[|b|..];
  }

  lemma HexIsInjective(c: CodeUnit, d: CodeUnit)
    requires c / 4096 == d / 4096 && c / 256 % 16 == d / 256 % 16
    requires c / 16 % 16 == d / 16 % 16 && c % 16 == d % 16
    ensures c == d
  {
    HexValue(c);
    HexValue(d);
  }

  lemma HexValue(c: CodeUnit)
    ensures c == 4096 * (c / 4096) + 256 * (c / 256 % 16) + 16 * (c / 16 % 16) + c % 16
  {
    var p := c / 16;
    var q := p / 16;
    assert c / 256 == q && c / 4096 == q / 16;
  }

  lemma HexDigitIsInjective(d: nat, e: nat)
    requires d < 16 && e < 16 && HexDigit(d) == HexDigit(e)
    ensures d == e
  {
  }

  /** One escape can be read off the front of a text in only one way. */
  lemma EscapeUnitIsPrefixFree(c: CodeUnit, d: CodeUnit, x: Text, y: Text)
    requires EscapeUnit(c) + x == EscapeUnit(d) + y
    ensures c == d && x == y
  {
    var e, f := EscapeUnit(c), EscapeUnit(d);
    assert (e + x)[0] == e[0] && (f + y)[0] == f[0];
    assert |e| > 1 ==> (e + x)[1] == e[1];
    assert |f| > 1 ==> (f + y)[1] == f[1];
    Split(e, f, x, y);
    if |e| == 6 {
      HexDigitIsInjective(c / 4096, d / 4096);
      HexDigitIsInjective(c / 256 % 16, d / 256 % 16);
      HexDigitIsInjective(c / 16 % 16, d / 16 % 16);
      HexDigitIsInjective(c % 16, d % 16);
      HexIsInjective(c, d);
    }
  }

  /** The first thing Escape emits for a nonempty string. */
  function FirstEscape(s: Text): (t: Text)
    requires |s| > 0
    ensures |t| > 0 && t[0] != QUOTE
  {
    if StartsWithPair(s) then s[..2] else EscapeUnit(s[0])
  }

  function FirstUnits(s: Text): (n: nat)
    requires |s| > 0
    ensures 0 < n <= |s|
  {
    if StartsWithPair(s) then 2 else 1
  }

  lemma FirstEscapeIsPrefixFree(s: Text, t: Text, x: Text, y: Text)
    requires |s| > 0 && |t| > 0
    requires FirstEscape(s) + x == FirstEscape(t) + y
    ensures FirstUnits(s) == FirstUnits(t) && s[..FirstUnits(s)] == t[..FirstUnits(t)] && x == y
  {
    assert (FirstEscape(s) + x)[0] == FirstEscape(s)[0] && (FirstEscape(t) + y)[0] == FirstEscape(t)[0];
    if StartsWithPair(s) {
      Split(s[..2], t[..2], x, y);
    } else {
      EscapeUnitIsPrefixFree(s[0], t[0], x, y);
    }
  }

  lemma {:induction false} EscapeIsInjective(s: Text, t: Text, x: Text, y: Text)
    requires Escape(s) + ([QUOTE] + x) == Escape(t) + ([QUOTE] + y)
    ensures s == t && x == y
    decreases |s|
  {
    var x', y' := [QUOTE] + x, [QUOTE] + y;
    assert |s| > 0 ==> (Escape(s) + x')[0] == FirstEscape(s)[0];
    assert |t| > 0 ==> (Escape(t) + y')[0] == FirstEscape(t)[0];
    assert |s| == 0 ==> Escape(s) + x' == x';
    assert |t| == 0 ==> Escape(t) + y' == y';
    if |s| == 0 {
      Split([QUOTE], [QUOTE], x, y);
    } else {
      var m, n := FirstUnits(s), FirstUnits(t);
      Assoc(FirstEscape(s), Escape(s[m..]), x');
      Assoc(FirstEscape(t), Escape(t[n..]), y');
      FirstEscapeIsPrefixFree(s, t, Escape(s[m..]) + x', Escape(t[n..]) + y');
      EscapeIsInjective(s[m..], t[n..], x, y);
      assert s == s[..m] + s[m..] && t == t[..n] + t[n..];
    }
  }

  lemma QuoteIsInjective(s: Text, t: Text, x: Text, y: Text)
    requires Quote(s) + x == Quote(t) + y
    ensures s == t && x == y
  {
    Assoc([QUOTE], Escape(s) + [QUOTE], x);
    Assoc([QUOTE], Escape(t) + [QUOTE], y);
    Split([QUOTE], [QUOTE], (Escape(s) + [QUOTE]) + x, (Escape(t) + [QUOTE]) + y);
    Assoc(Escape(s), [QUOTE], x);
    Assoc(Escape(t), [QUOTE], y);
    EscapeIsInjective(s, t, x, y);
  }

  lemma NumberIsInjective(a: Text, b: Text, x: Text, y: Text)
    requires forall i | 0 <= i < |a| :: IsNumberUnit(a[i])
    requires forall i | 0 <= i < |b| :: IsNumberUnit(b[i])
    requires Delimited(x) && Delimited(y) && a + x == b + y
    ensures a == b && x == y
  {
    assert UnitAt(a + x, |a|) == UnitAt(b + y, |a|);
    assert UnitAt(a + x, |b|) == UnitAt(b + y, |b|);
    Split(a, b, x, y);
  }

  lemma IntTextIsIntLexeme(n: int)
    ensures IsIntLexeme(IntText(n))
  {
    assert n < 0 ==> IntText(n)[1..] == DecimalText(-n);
  }

  lemma IntTextIsInjective(m: int, n: int)
    requires IntText(m) == IntText(n)
    ensures m == n
  {
    assert IntText(m)[0] == IntText(n)[0];
    assert IntText(m)[1..] == IntText(n)[1..];
    assert m < 0 ==> IntText(m)[1..] == DecimalText(-m);
    assert n < 0 ==> IntText(n)[1..] == DecimalText(-n);
  }

  /** The first code unit tells which kind of value a text holds. */
  function Kind(c: CodeUnit): nat {
    if IsDigit(c) || c == 45 then 1
    else if c == 117 then 2
    else if c == 110 then 3
    else if c == 116 then 4
    else if c == 102 then 5
    else if c == QUOTE then 6
    else if c == OPEN_BRACKET then 7
    else if c == OPEN_BRACE then 8
    else 0
  }

  function KindOf(v: Value): nat {
    match v
    case Int(_) => 1
    case Float(_) => 1
    case Undefined => 2
    case Null => 3
    case Bool(b) => if b then 4 else 5
    case Str(_) => 6
    case Arr(_) => 7
    case Obj(_) => 8
  }

  lemma PrintStartsWithKind(v: Value)
    requires WellFormed(v)
    ensures |Print(v)| > 0 && Kind(Print(v)[0]) == KindOf(v)
  {
  }

  lemma SameKind(a: Value, b: Value, x: Text, y: Text)
    requires WellFormed(a) && WellFormed(b)
    requires Print(a) + x == Print(b) + y
    ensures KindOf(a) == KindOf(b)
  {
    PrintStartsWithKind(a);
    PrintStartsWithKind(b);
    assert (Print(a) + x)[0] == Print(a)[0] && (Print(b) + y)[0] == Print(b)[0];
  }

  /** Printed values are self-delimiting: a text can be read in only one way. */
  lemma {:induction false} PrintIsInjective(a: Value, b: Value, x: Text, y: Text)
    requires WellFormed(a) && WellFormed(b) && Delimited(x) && Delimited(y)
    requires Print(a) + x == Print(b) + y
    ensures a == b && x == y
    decreases a, 2
  {
    SameKind(a, b, x, y);
    match a
    case Int(n) => NumbersAgree(a, b, x, y);
    case Float(l) => NumbersAgree(a, b, x, y);
    case Str(s) => QuoteIsInjective(s, b.s, x, y);
    case Arr(items) => PrintArrIsInjective(items, b.items, x, y);
    case Obj(ms) => PrintObjIsInjective(ms, b.members, x, y);
    case _ => Split(Print(a), Print(b), x, y);
  }

  lemma NumbersAgree(a: Value, b: Value, x: Text, y: Text)
    requires WellFormed(a) && WellFormed(b) && KindOf(a) == KindOf(b) == 1
    requires Delimited(x) && Delimited(y) && Print(a) + x == Print(b) + y
    ensures a == b && x == y
  {
    if a.Int? { IntTextIsIntLexeme(a.n); }
    if b.Int? { IntTextIsIntLexeme(b.n); }
    NumberIsInjective(Print(a), Print(b), x, y);
    if a.Int? && b.Int? { IntTextIsInjective(a.n, b.n); }
  }

  lemma {:induction false} PrintArrIsInjective(xs: seq<Value>, ys: seq<Value>, x: Text, y: Text)
    requires WellFormedItems(xs) && WellFormedItems(ys)
    requires Print(Arr(xs)) + x == Print(Arr(ys)) + y
    ensures xs == ys && x == y
    decreases xs, 1
  {
    var p := if |xs| == 0 then [] else Print(xs[0]) + PrintItems(xs[1..]);
    var q := if |ys| == 0 then [] else Print(ys[0]) + PrintItems(ys[1..]);
    Assoc([OPEN_BRACKET], p + [CLOSE_BRACKET], x);
    Assoc([OPEN_BRACKET], q + [CLOSE_BRACKET], y);
    Assoc(p, [CLOSE_BRACKET], x);
    Assoc(q, [CLOSE_BRACKET], y);
    Split([OPEN_BRACKET], [OPEN_BRACKET], p + ([CLOSE_BRACKET] + x), q + ([CLOSE_BRACKET] + y));
    // With a comma in front, both lists read as rests.
    Assoc([COMMA], p, [CLOSE_BRACKET] + x);
    Assoc([COMMA], q, [CLOSE_BRACKET] + y);
    if |xs| > 0 && |ys| > 0 {
      PrintItemsIsInjective(xs, ys, x, y);
    } else {
      if |xs| > 0 { PrintStartsWithKind(xs[0]); }
      if |ys| > 0 { PrintStartsWithKind(ys[0]); }
      assert UnitAt(p + ([CLOSE_BRACKET] + x), 0) == UnitAt(q + ([CLOSE_BRACKET] + y), 0);
      Split(p + [CLOSE_BRACKET], q + [CLOSE_BRACKET], x, y);
    }
  }

  lemma {:induction false} PrintItemsIsInjective(xs: seq<Value>, ys: seq<Value>, x: Text, y: Text)
    requires WellFormedItems(xs) && WellFormedItems(ys)
    requires PrintItems(xs) + ([CLOSE_BRACKET] + x) == PrintItems(ys) + ([CLOSE_BRACKET] + y)
    ensures xs == ys && x == y
    decreases xs, 0
  {
    var x', y' := [CLOSE_BRACKET] + x, [CLOSE_BRACKET] + y;
    assert UnitAt(PrintItems(xs) + x', 0) == UnitAt(PrintItems(ys) + y', 0);
    if |xs| == 0 {
      assert PrintItems(xs) + x' == x' && PrintItems(ys) + y' == y';
      Split([CLOSE_BRACKET], [CLOSE_BRACKET], x, y);
    } else {
      var l, r := PrintItems(xs[1..]) + x', PrintItems(ys[1..]) + y';
      ItemFirst(xs, x');
      ItemFirst(ys, y');
      Split([COMMA], [COMMA], Print(xs[0]) + l, Print(ys[0]) + r);
      PrintIsInjective(xs[0], ys[0], l, r);
      PrintItemsIsInjective(xs[1..], ys[1..], x, y);
      assert xs == [xs[0]] + xs[1..] && ys == [ys[0]] + ys[1..];
    }
  }

  lemma ItemFirst(xs: seq<Value>, t: Text)
    requires |xs| > 0 && Delimited(t)
    ensures PrintItems(xs) + t == [COMMA] + (Print(xs[0]) + (PrintItems(xs[1..]) + t))
    ensures Delimited(PrintItems(xs[1..]) + t)
  {
    Assoc([COMMA], Print(xs[0]) + PrintItems(xs[1..]), t);
    Assoc(Print(xs[0]), PrintItems(xs[1..]), t);
    assert |xs| == 1 ==> PrintItems(xs[1..]) + t == t;
  }

  lemma {:induction false} PrintObjIsInjective(ms: seq<Member>, ns: seq<Member>, x: Text, y: Text)
    requires WellFormedMembers(ms) && WellFormedMembers(ns)
    requires Print(Obj(ms)) + x == Print(Obj(ns)) + y
    ensures ms == ns && x == y
    decreases ms, 1
  {
    var p := if |ms| == 0 then [] else PrintMember(ms[0]) + PrintMembers(ms[1..]);
    var q := if |ns| == 0 then [] else PrintMember(ns[0]) + PrintMembers(ns[1..]);
    Assoc([OPEN_BRACE], p + [CLOSE_BRACE], x);
    Assoc([OPEN_BRACE], q + [CLOSE_BRACE], y);
    Assoc(p, [CLOSE_BRACE], x);
    Assoc(q, [CLOSE_BRACE], y);
    Split([OPEN_BRACE], [OPEN_BRACE], p + ([CLOSE_BRACE] + x), q + ([CLOSE_BRACE] + y));
    Assoc([COMMA], p, [CLOSE_BRACE] + x);
    Assoc([COMMA], q, [CLOSE_BRACE] + y);
    if |ms| > 0 && |ns| > 0 {
      PrintMembersIsInjective(ms, ns, x, y);
    } else {
      assert UnitAt(p + ([CLOSE_BRACE] + x), 0) == UnitAt(q + ([CLOSE_BRACE] + y), 0);
      Split(p + [CLOSE_BRACE], q + [CLOSE_BRACE], x, y);
    }
  }

  lemma {:induction false} PrintMembersIsInjective(ms: seq<Member>, ns: seq<Member>, x: Text, y: Text)
    requires WellFormedMembers(ms) && WellFormedMembers(ns)
    requires PrintMembers(ms) + ([CLOSE_BRACE] + x) == PrintMembers(ns) + ([CLOSE_BRACE] + y)
    ensures ms == ns && x == y
    decreases ms, 0
  {
    var x', y' := [CLOSE_BRACE] + x, [CLOSE_BRACE] + y;
    assert UnitAt(PrintMembers(ms) + x', 0) == UnitAt(PrintMembers(ns) + y', 0);
    if |ms| == 0 {
      assert PrintMembers(ms) + x' == x' && PrintMembers(ns) + y' == y';
      Split([CLOSE_BRACE], [CLOSE_BRACE], x, y);
    } else {
      var l, r := PrintMembers(ms[1..]) + x', PrintMembers(ns[1..]) + y';
      MemberFirst(ms, x');
      MemberFirst(ns, y');
      Split([COMMA], [COMMA], PrintMember(ms[0]) + l, PrintMember(ns[0]) + r);
      PrintMemberIsInjective(ms[0], ns[0], l, r);
      PrintMembersIsInjective(ms[1..], ns[1..], x, y);
      assert ms == [ms[0]] + ms[1..] && ns == [ns[0]] + ns[1..];
    }
  }

  lemma {:induction false} PrintMemberIsInjective(m: Member, n: Member, x: Text, y: Text)
    requires WellFormed(m.value) && WellFormed(n.value) && Delimited(x) && Delimited(y)
    requires PrintMember(m) + x == PrintMember(n) + y
    ensures m == n && x == y
    decreases m, 0
  {
    var l, r := Print(m.value), Print(n.value);
    Assoc(Quote(m.key), [COLON] + l, x);
    Assoc(Quote(n.key), [COLON] + r, y);
    QuoteIsInjective(m.key, n.key, ([COLON] + l) + x, ([COLON] + r) + y);
    Assoc([COLON], l, x);
    Assoc([COLON], r, y);
    Split([COLON], [COLON], l + x, r + y);
    PrintIsInjective(m.value, n.value, x, y);
  }

  lemma MemberFirst(ms: seq<Member>, t: Text)
    requires |ms| > 0 && Delimited(t)
    ensures PrintMembers(ms) + t == [COMMA] + (PrintMember(ms[0]) + (PrintMembers(ms[1..]) + t))
    ensures Delimited(PrintMembers(ms[1..]) + t)
  {
    Assoc([COMMA], PrintMember(ms[0]) + PrintMembers(ms[1..]), t);
    Assoc(PrintMember(ms[0]), PrintMembers(ms[1..]), t);
    assert |ms| == 1 ==> PrintMembers(ms[1..]) + t == t;
  }

  /** Two values have the same canonical text exactly when they are equal up to key order. */
  lemma StableJsonIsExact(a: Value, b: Value)
    requires WellFormed(a) && WellFormed(b)
    ensures StableJson(a) == StableJson(b) <==> Same(a, b)
  {
    StableJsonPrintsCanonical(a);
    StableJsonPrintsCanonical(b);
    CanonicalDecidesSame(a, b);
    CanonicalIsWellFormed(a);
    CanonicalIsWellFormed(b);
    if StableJson(a) == StableJson(b) {
      PrintIsInjective(Canonical(a), Canonical(b), [], []);
    }
  }
}
