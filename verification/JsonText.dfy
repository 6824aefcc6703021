/** The outer form of canonical JSON text: brackets, commas, colons and the order of keys. */
module JsonText {
  import opened Texts
  import opened Json

  /** The texts with a comma between any two. */
  function Joined(ts: seq<Text>): Text {
    if |ts| == 0 then [] else if |ts| == 1 then ts[0] else Joined(ts[..|ts| - 1]) + ([44] + ts[|ts| - 1])
  }

  /** The texts with a comma before each. */
  function Commas(ts: seq<Text>): Text {
    if |ts| == 0 then [] else [44] + (ts[0] + Commas(ts[1..]))
  }

  lemma {:induction false} CommasAppend(ts: seq<Text>, t: Text)
    ensures Commas(ts + [t]) == Commas(ts) + ([44] + t)
  {
    if |ts| == 0 {
      assert ts + [t] == [t] && [t][1..] == [];
    } else {
      assert (ts + [t])[1..] == ts[1..] + [t];
      CommasAppend(ts[1..], t);
      Assoc(ts[0], Commas(ts[1..]), [44] + t);
      Assoc([44], ts[0] + Commas(ts[1..]), [44] + t);
    }
  }

  lemma {:induction false} JoinedIsCommas(t: Text, ts: seq<Text>)
    ensures Joined([t] + ts) == t + Commas(ts)
  {
    if |ts| > 0 {
      var n := |ts| - 1;
      JoinedIsCommas(t, ts[..n]);
      CommasAppend(ts[..n], ts[n]);
      assert ts == ts[..n] + [ts[n]] && ([t] + ts)[..n + 1] == [t] + ts[..n];
      Assoc(t, Commas(ts[..n]), [44] + ts[n]);
    }
  }

  function ItemTexts(items: seq<Value>): (ts: seq<Text>)
    ensures |ts| == |items| && forall i | 0 <= i < |items| :: ts[i] == StableJson(items[i])
  {
    seq(|items|, i requires 0 <= i < |items| => StableJson(items[i]))
  }

  lemma {:induction false} ItemsAreCommas(items: seq<Value>)
    ensures StableItems(items) == Commas(ItemTexts(items))
  {
    if |items| > 0 {
      ItemsAreCommas(items[1..]);
      assert ItemTexts(items)[1..] == ItemTexts(items[1..]);
    }
  }

  /** An array is written in brackets, its items in order, with commas between them. */
  lemma ArrayText(items: seq<Value>)
    ensures StableJson(Arr(items)) == [91] + (Joined(ItemTexts(items)) + [93])
  {
    if |items| > 0 {
      ItemsAreCommas(items[1..]);
      JoinedIsCommas(StableJson(items[0]), ItemTexts(items[1..]));
      assert ItemTexts(items) == [StableJson(items[0])] + ItemTexts(items[1..]);
    }
  }

  /** "key":value for the member of that name. */
  function MemberText(ms: seq<Member>, key: Text): Text
    requires key in Keys(ms)
  {
    Quote(key) + ([58] + StableJson(ms[IndexOfKey(ms, key)].value))
  }

  function MemberTexts(ms: seq<Member>, ks: seq<Text>): (ts: seq<Text>)
    requires forall k | k in ks :: k in Keys(ms)
    ensures |ts| == |ks| && forall i | 0 <= i < |ks| :: ts[i] == MemberText(ms, ks[i])
  {
    seq(|ks|, i requires 0 <= i < |ks| => MemberText(ms, ks[i]))
  }

  lemma {:induction false} MembersAreCommas(ms: seq<Member>, ks: seq<Text>)
    requires forall k | k in ks :: k in Keys(ms)
    ensures StableMembers(ms, ks) == Commas(MemberTexts(ms, ks))
  {
    if |ks| > 0 {
      MembersAreCommas(ms, ks[1..]);
      assert MemberTexts(ms, ks)[1..] == MemberTexts(ms, ks[1..]);
    }
  }

  /** The keys of the members, each once, in ascending order. */
  ghost predicate AreKeysInOrder(ms: seq<Member>, ks: seq<Text>) {
    && (forall k :: k in ks <==> k in Keys(ms))
    && forall i, j | 0 <= i < j < |ks| :: Less(ks[i], ks[j])
  }

  lemma MemberTextsSplit(ms: seq<Member>, ks: seq<Text>)
    requires |ks| > 0 && forall k | k in ks :: k in Keys(ms)
    ensures MemberTexts(ms, ks) == [StableMember(ms, ks[0])] + MemberTexts(ms, ks[1..])
  {
    var ts, rest := MemberTexts(ms, ks), MemberTexts(ms, ks[1..]);
    forall i | 0 <= i < |rest| ensures ts[i + 1] == rest[i] {
      assert ks[1..][i] == ks[i + 1];
    }
  }

  lemma MembersJoin(ms: seq<Member>, ks: seq<Text>)
    requires |ks| > 0 && forall k | k in ks :: k in Keys(ms)
    ensures StableMember(ms, ks[0]) + StableMembers(ms, ks[1..]) == Joined(MemberTexts(ms, ks))
  {
    MembersAreCommas(ms, ks[1..]);
    JoinedIsCommas(StableMember(ms, ks[0]), MemberTexts(ms, ks[1..]));
    MemberTextsSplit(ms, ks);
  }

  lemma ObjectIsInBraces(ms: seq<Member>)
    ensures StableJson(Obj(ms)) == [123] + (Joined(MemberTexts(ms, SortedKeys(ms))) + [125])
  {
    if |SortedKeys(ms)| > 0 { MembersJoin(ms, SortedKeys(ms)); }
  }

  /** An object is written in braces, its members in the order of their keys, with commas between them. */
  lemma ObjectText(ms: seq<Member>) returns (ks: seq<Text>)
    requires DistinctKeys(ms)
    ensures AreKeysInOrder(ms, ks)
    ensures StableJson(Obj(ms)) == [123] + (Joined(MemberTexts(ms, ks)) + [125])
  {
    ks := SortedKeys(ms);
    ObjectIsInBraces(ms);
    SortedKeysAreIncreasing(ms);
  }

  /** A unit that JSON writes as it is. */
  predicate IsPlain(c: CodeUnit) {
    c >= 32 && c != 34 && c != 92 && !(0xD800 <= c <= 0xDFFF)
  }

  /** Text of plain units is written between quotation marks, unit by unit. */
  lemma {:induction false} PlainText(s: Text)
    requires forall i | 0 <= i < |s| :: IsPlain(s[i])
    ensures Escape(s) == s && Quote(s) == [34] + (s + [34])
  {
    if |s| > 0 {
      PlainText(s[1..]);
      assert s == [s[0]] + s[1..];
    }
  }

  /** A surrogate pair stays as it is; a surrogate on its own is escaped. */
  lemma PairsStay(high: CodeUnit, low: CodeUnit, s: Text)
    requires 0xD800 <= high <= 0xDBFF && 0xDC00 <= low <= 0xDFFF
    ensures Escape([high, low] + s) == [high, low] + Escape(s)
    ensures Escape([low] + s) == EscapeUnit(low) + Escape(s)
    ensures Escape([high]) == EscapeUnit(high)
  {
    assert ([high, low] + s)[..2] == [high, low] && ([high, low] + s)[2..] == s;
    assert ([low] + s)[1..] == s;
    assert [high][1..] == [];
  }

  /** The lower-case hexadecimal digit of a number below sixteen. */
  predicate IsHexDigitOf(c: CodeUnit, d: nat) {
    if d < 10 then c == 48 + d else d < 16 && c == 97 + (d - 10)
  }

  /** How section 7 of RFC 8259 lets a unit be escaped, in the form JSON.stringify chooses. */
  lemma EscapedUnits(c: CodeUnit)
    ensures c == 34 || c == 92 ==> EscapeUnit(c) == [92, c]
    ensures c == 8 ==> EscapeUnit(c) == [92, 98]
    ensures c == 9 ==> EscapeUnit(c) == [92, 116]
    ensures c == 10 ==> EscapeUnit(c) == [92, 110]
    ensures c == 12 ==> EscapeUnit(c) == [92, 102]
    ensures c == 13 ==> EscapeUnit(c) == [92, 114]
    ensures !IsPlain(c) && c !in {34, 92, 8, 9, 10, 12, 13} ==>
      var t := EscapeUnit(c);
      && |t| == 6 && t[..2] == [92, 117] && IsHexDigitOf(t[2], c / 4096) && IsHexDigitOf(t[3], c / 256 % 16)
      && IsHexDigitOf(t[4], c / 16 % 16) && IsHexDigitOf(t[5], c % 16)
  {
  }

  /** Numbers, truth values, null and undefined. */
  lemma AtomText(n: int)
    ensures StableJson(Null) == [110, 117, 108, 108]
    ensures StableJson(Bool(true)) == [116, 114, 117, 101] && StableJson(Bool(false)) == [102, 97, 108, 115, 101]
    ensures StableJson(Int(n)) == if n < 0 then [45] + DecimalText(-n) else DecimalText(n)
  {
  }
}
