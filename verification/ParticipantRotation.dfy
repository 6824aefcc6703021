/** The review of a new participant set, and when an operation may be built from it. */
module ParticipantRotation {
  import opened Wrappers
  import opened Texts
  import SignatureMerge

  /** normalize maps a trimmed key to its canonical form, None for text that is no key. */
  datatype Keys = Keys(normalize: Text -> Option<Text>, emptyKey: Text)

  datatype KeyReview = KeyReview(
    value: Text, normalized: Option<Text>, valid: bool, empty: bool, duplicate: bool, currentParticipantIndex: Option<nat>)

  datatype Review = Review(
    keys: seq<KeyReview>, emptyCount: nat, invalidCount: nat, duplicateCount: nat, retainedCount: nat, newCount: nat,
    exactCurrentOrder: bool, canBuild: bool)

  datatype RotationError = WrongCount | MissingKey | InvalidKey | EmptyKey | DuplicateKey | UnchangedKeys

  /** A trimmed entry as a key; empty text and text that is no key have no normal form. */
  function Normalized(ks: Keys, value: Text): Option<Text> {
    if Trim(value) == [] then None
    else if Trim(value) == ks.emptyKey then Some(ks.emptyKey)
    else ks.normalize(Trim(value))
  }

  function NormalizedAll(ks: Keys, values: seq<Text>): (r: seq<Option<Text>>)
    ensures |r| == |values| && forall i | 0 <= i < |values| :: r[i] == Normalized(ks, values[i])
  {
    seq(|values|, i requires 0 <= i < |values| => Normalized(ks, values[i]))
  }

  function Occurrences(ns: seq<Option<Text>>, key: Text): nat {
    if |ns| == 0 then 0 else Occurrences(ns[..|ns| - 1], key) + if ns[|ns| - 1] == Some(key) then 1 else 0
  }

  lemma {:induction false} OccursTwice(ns: seq<Option<Text>>, key: Text)
    ensures Occurrences(ns, key) >= 1 <==> exists i :: 0 <= i < |ns| && ns[i] == Some(key)
    ensures Occurrences(ns, key) >= 2 <==> exists i, j :: 0 <= i < j < |ns| && ns[i] == Some(key) && ns[j] == Some(key)
  {
    if |ns| > 0 {
      var n := |ns| - 1;
      OccursTwice(ns[..n], key);
      if Occurrences(ns, key) >= 1 && ns[n] != Some(key) {
        var i :| 0 <= i < n && ns[..n][i] == Some(key);
        assert ns[i] == Some(key);
      }
      if i :| 0 <= i < n && ns[i] == Some(key) {
        assert ns[..n][i] == Some(key);
      }
      if Occurrences(ns, key) >= 2 && ns[n] != Some(key) {
        var i, j :| 0 <= i < j < n && ns[..n][i] == Some(key) && ns[..n][j] == Some(key);
        assert ns[i] == Some(key) && ns[j] == Some(key);
      }
      if Occurrences(ns, key) >= 2 && ns[n] == Some(key) {
        var i :| 0 <= i < n && ns[..n][i] == Some(key);
        assert ns[i] == Some(key) && i < n;
      }
      if i, j :| 0 <= i < j < n && ns[i] == Some(key) && ns[j] == Some(key) {
        assert ns[..n][i] == Some(key) && ns[..n][j] == Some(key);
      }
    }
  }

  /** The same key stands at another place. */
  predicate Repeated(ns: seq<Option<Text>>, i: nat)
    requires i < |ns|
  {
    ns[i].Some? && exists j | 0 <= j < |ns| :: j != i && ns[j] == ns[i]
  }

  lemma RepeatedCounts(ns: seq<Option<Text>>, i: nat)
    requires i < |ns| && ns[i].Some?
    ensures Repeated(ns, i) <==> Occurrences(ns, ns[i].value) > 1
  {
    OccursTwice(ns, ns[i].value);
    if Repeated(ns, i) {
      var j :| 0 <= j < |ns| && j != i && ns[j] == ns[i];
      assert if i < j then ns[i] == Some(ns[i].value) && ns[j] == Some(ns[i].value) else true;
    }
  }

  function FirstIndex(ns: seq<Option<Text>>, key: Option<Text>): (r: Option<nat>)
    ensures r.Some? ==> r.value < |ns| && ns[r.value] == key && forall i | 0 <= i < r.value :: ns[i] != key
    ensures r.None? ==> key !in ns
  {
    if |ns| == 0 then None
    else
      var front := FirstIndex(ns[..|ns| - 1], key);
      assert ns == ns[..|ns| - 1] + [ns[|ns| - 1]];
      if front.Some? then front else if ns[|ns| - 1] == key then Some(|ns| - 1) else None
  }

  /** What the review says about entry i. */
  ghost predicate Reviews(ks: Keys, current: seq<Text>, next: seq<Text>, i: nat, k: KeyReview)
    requires i < |next|
  {
    var ns, cs := NormalizedAll(ks, next), NormalizedAll(ks, current);
    && k.value == Trim(next[i]) && k.normalized == ns[i]
    && k.valid == ns[i].Some? && k.empty == (ns[i] == Some(ks.emptyKey)) && k.duplicate == Repeated(ns, i)
    && k.currentParticipantIndex == if ns[i].Some? then FirstIndex(cs, ns[i]) else None
  }

  /** A new set may be built: five distinct proper keys, not the current ones in their order. */
  ghost predicate Acceptable(ks: Keys, current: seq<Text>, next: seq<Text>) {
    var ns, cs := NormalizedAll(ks, next), NormalizedAll(ks, current);
    && |next| == SignatureMerge.PARTICIPANT_COUNT
    && (forall i | 0 <= i < |ns| :: Trim(next[i]) != [] && ns[i].Some? && ns[i].value != ks.emptyKey)
    && (forall i, j | 0 <= i < j < |ns| :: ns[i] != ns[j])
    && ns != cs
  }

  /** The entry is a key, other than the empty one. */
  predicate ProperKey(ks: Keys, value: Text) {
    && Trim(value) != [] && Trim(value) != ks.emptyKey
    && ks.normalize(Trim(value)).Some? && ks.normalize(Trim(value)).value != ks.emptyKey
  }

  /** The two entries are the same proper key. */
  predicate SameKey(ks: Keys, a: Text, b: Text) {
    ProperKey(ks, a) && ProperKey(ks, b) && ks.normalize(Trim(a)) == ks.normalize(Trim(b))
  }

  lemma NormalFormsAreKeys(ks: Keys, a: Text, b: Text)
    ensures Normalized(ks, a).Some? && Normalized(ks, a).value != ks.emptyKey && Trim(a) != [] <==> ProperKey(ks, a)
    ensures ProperKey(ks, a) ==> (Normalized(ks, a) == Normalized(ks, b) <==> SameKey(ks, a, b))
  {
  }

  /** In terms of the entries themselves: five proper keys, no two the same, not the current ones place by place. */
  lemma AcceptableInKeys(ks: Keys, current: seq<Text>, next: seq<Text>)
    ensures Acceptable(ks, current, next) <==>
      && |next| == 5 && (forall i | 0 <= i < |next| :: ProperKey(ks, next[i]))
      && (forall i, j | 0 <= i < j < |next| :: !SameKey(ks, next[i], next[j]))
      && !(|current| == 5 && forall i | 0 <= i < |next| :: SameKey(ks, next[i], current[i]))
  {
    var ns, cs := NormalizedAll(ks, next), NormalizedAll(ks, current);
    forall i | 0 <= i < |next|
      ensures ns[i].Some? && ns[i].value != ks.emptyKey && Trim(next[i]) != [] <==> ProperKey(ks, next[i])
    {
      NormalFormsAreKeys(ks, next[i], next[i]);
    }
    if |next| == 5 && forall i | 0 <= i < |next| :: ProperKey(ks, next[i]) {
      forall i, j | 0 <= i < j < |next| ensures ns[i] == ns[j] <==> SameKey(ks, next[i], next[j]) {
        NormalFormsAreKeys(ks, next[i], next[j]);
      }
      if |current| == 5 {
        forall i | 0 <= i < |next| ensures ns[i] == cs[i] <==> SameKey(ks, next[i], current[i]) {
          NormalFormsAreKeys(ks, next[i], current[i]);
        }
        assert ns == cs <==> forall i | 0 <= i < |next| :: ns[i] == cs[i];
      }
    }
  }

  predicate IsEmpty(k: KeyReview) {
    k.empty
  }

  predicate IsInvalid(k: KeyReview) {
    k.value != [] && !k.valid
  }

  predicate IsDuplicate(k: KeyReview) {
    k.duplicate
  }

  predicate IsRetained(k: KeyReview) {
    k.currentParticipantIndex.Some?
  }

  predicate IsNew(k: KeyReview) {
    k.valid && k.currentParticipantIndex.None?
  }

  function Flag(keys: seq<KeyReview>, chosen: KeyReview -> bool): nat {
    if |keys| == 0 then 0 else Flag(keys[..|keys| - 1], chosen) + if chosen(keys[|keys| - 1]) then 1 else 0
  }

  lemma {:induction false} FlagZero(keys: seq<KeyReview>, chosen: KeyReview -> bool)
    ensures Flag(keys, chosen) == 0 <==> forall i | 0 <= i < |keys| :: !chosen(keys[i])
  {
    if |keys| > 0 {
      var n := |keys| - 1;
      FlagZero(keys[..n], chosen);
      assert forall i | 0 <= i < n :: keys[..n][i] == keys[i];
    }
  }

  method CountFlag(keys: seq<KeyReview>, chosen: KeyReview -> bool) returns (count: nat)
    ensures count == Flag(keys, chosen)
  {
    count := 0;
    for n := 0 to |keys|
      invariant count == Flag(keys[..n], chosen)
    {
      assert keys[..n + 1][..n] == keys[..n];
      if chosen(keys[n]) { count := count + 1; }
    }
    assert keys[..|keys|] == keys;
  }

  /** The counts map: how often every key occurs among the candidates. */
  method CountKeys(ns: seq<Option<Text>>) returns (counts: map<Text, nat>)
    ensures forall key :: (if key in counts then counts[key] else 0) == Occurrences(ns, key)
  {
    counts := map[];
    for n := 0 to |ns|
      invariant forall key :: (if key in counts then counts[key] else 0) == Occurrences(ns[..n], key)
    {
      assert ns[..n + 1][..n] == ns[..n];
      if ns[n].Some? {
        var key := ns[n].value;
        counts := counts[key := (if key in counts then counts[key] else 0) + 1];
      }
    }
    assert ns[..|ns|] == ns;
  }

  method ReviewKeys(ks: Keys, current: seq<Text>, next: seq<Text>) returns (keys: seq<KeyReview>)
    ensures |keys| == |next| && forall i | 0 <= i < |next| :: Reviews(ks, current, next, i, keys[i])
  {
    var ns, cs := NormalizedAll(ks, next), NormalizedAll(ks, current);
    var counts := CountKeys(ns);
    keys := [];
    for i := 0 to |next|
      invariant |keys| == i && forall j | 0 <= j < i :: Reviews(ks, current, next, j, keys[j])
    {
      var n := ns[i];
      var duplicate := false;
      if n.Some? {
        RepeatedCounts(ns, i);
        duplicate := (if n.value in counts then counts[n.value] else 0) > 1;
      }
      keys := keys + [KeyReview(
        Trim(next[i]), n, n.Some?, n == Some(ks.emptyKey), duplicate, if n.Some? then FirstIndex(cs, n) else None)];
    }
  }

  /** inspectParticipantRotation: its verdict is exactly that the new set is acceptable. */
  method InspectParticipantRotation(ks: Keys, current: seq<Text>, next: seq<Text>) returns (r: Review)
    ensures |r.keys| == |next| && forall i | 0 <= i < |next| :: Reviews(ks, current, next, i, r.keys[i])
    ensures r.emptyCount == Flag(r.keys, IsEmpty)
    ensures r.invalidCount == Flag(r.keys, IsInvalid)
    ensures r.duplicateCount == Flag(r.keys, IsDuplicate)
    ensures r.retainedCount == Flag(r.keys, IsRetained) && r.newCount == Flag(r.keys, IsNew)
    ensures r.canBuild <==> Acceptable(ks, current, next)
    ensures r.exactCurrentOrder <==>
      NormalizedAll(ks, next) == NormalizedAll(ks, current) && forall i | 0 <= i < |next| :: Normalized(ks, next[i]).Some?
  {
    var keys := ReviewKeys(ks, current, next);
    var cs := NormalizedAll(ks, current);
    var emptyCount := CountFlag(keys, IsEmpty);
    var invalidCount := CountFlag(keys, IsInvalid);
    var duplicateCount := CountFlag(keys, IsDuplicate);
    var retainedCount := CountFlag(keys, IsRetained);
    var newCount := CountFlag(keys, IsNew);
    var exactCurrentOrder :=
      |keys| == |cs| && forall i | 0 <= i < |keys| :: keys[i].normalized.Some? && keys[i].normalized == cs[i];
    var allPresent := |keys| == SignatureMerge.PARTICIPANT_COUNT && forall i | 0 <= i < |keys| :: keys[i].value != [];
    var canBuild := allPresent && invalidCount == 0 && emptyCount == 0 && duplicateCount == 0 && !exactCurrentOrder;
    r := Review(keys, emptyCount, invalidCount, duplicateCount, retainedCount, newCount, exactCurrentOrder, canBuild);
    ExactOrder(ks, current, next, keys);
    VerdictIsAcceptable(ks, current, next, keys, exactCurrentOrder);
  }

  /** Entry i is one of five proper keys. */
  predicate Proper(ks: Keys, next: seq<Text>, i: nat)
    requires i < |next|
  {
    var n := Normalized(ks, next[i]);
    Trim(next[i]) != [] && n.Some? && n.value != ks.emptyKey && !Repeated(NormalizedAll(ks, next), i)
  }

  predicate Flawless(k: KeyReview) {
    k.value != [] && !IsInvalid(k) && !IsEmpty(k) && !IsDuplicate(k)
  }

  lemma FlawlessIsProper(ks: Keys, current: seq<Text>, next: seq<Text>, i: nat, k: KeyReview)
    requires i < |next| && Reviews(ks, current, next, i, k)
    ensures Flawless(k) <==> Proper(ks, next, i)
  {
  }

  lemma UnrepeatedIsDistinct(ns: seq<Option<Text>>)
    requires forall i | 0 <= i < |ns| :: ns[i].Some?
    ensures (forall i | 0 <= i < |ns| :: !Repeated(ns, i)) <==> (forall i, j | 0 <= i < j < |ns| :: ns[i] != ns[j])
  {
    if forall i | 0 <= i < |ns| :: !Repeated(ns, i) {
      forall i, j | 0 <= i < j < |ns| ensures ns[i] != ns[j] {
        assert !Repeated(ns, i);
      }
    }
    if forall i, j | 0 <= i < j < |ns| :: ns[i] != ns[j] {
      forall i | 0 <= i < |ns| ensures !Repeated(ns, i) {
      }
    }
  }

  lemma ProperIsAcceptable(ks: Keys, current: seq<Text>, next: seq<Text>)
    ensures Acceptable(ks, current, next) <==>
      && |next| == SignatureMerge.PARTICIPANT_COUNT && (forall i | 0 <= i < |next| :: Proper(ks, next, i))
      && NormalizedAll(ks, next) != NormalizedAll(ks, current)
  {
    var ns := NormalizedAll(ks, next);
    if Acceptable(ks, current, next) {
      UnrepeatedIsDistinct(ns);
      forall i | 0 <= i < |next| ensures Proper(ks, next, i) {
        assert !Repeated(ns, i) && ns[i].Some?;
      }
    }
    if forall i | 0 <= i < |next| :: Proper(ks, next, i) {
      forall i | 0 <= i < |ns|
        ensures Trim(next[i]) != [] && ns[i].Some? && ns[i].value != ks.emptyKey && !Repeated(ns, i)
      {
        assert Proper(ks, next, i);
      }
      UnrepeatedIsDistinct(ns);
    }
  }

  lemma FlagsCount(keys: seq<KeyReview>)
    ensures
      (forall i | 0 <= i < |keys| :: Flawless(keys[i])) <==>
      (forall i | 0 <= i < |keys| :: keys[i].value != [])
      && Flag(keys, IsInvalid) == 0 && Flag(keys, IsEmpty) == 0 && Flag(keys, IsDuplicate) == 0
  {
    FlagZero(keys, IsInvalid);
    FlagZero(keys, IsEmpty);
    FlagZero(keys, IsDuplicate);
  }

  lemma VerdictIsAcceptable(ks: Keys, current: seq<Text>, next: seq<Text>, keys: seq<KeyReview>, exact: bool)
    requires |keys| == |next| && forall i | 0 <= i < |next| :: Reviews(ks, current, next, i, keys[i])
    requires exact <==>
      NormalizedAll(ks, next) == NormalizedAll(ks, current) && forall i | 0 <= i < |next| :: Normalized(ks, next[i]).Some?
    ensures
      (&& |keys| == SignatureMerge.PARTICIPANT_COUNT && (forall i | 0 <= i < |keys| :: keys[i].value != [])
       && Flag(keys, IsInvalid) == 0 && Flag(keys, IsEmpty) == 0 && Flag(keys, IsDuplicate) == 0 && !exact)
      <==> Acceptable(ks, current, next)
  {
    FlagsCount(keys);
    ProperIsAcceptable(ks, current, next);
    forall i | 0 <= i < |keys| ensures Flawless(keys[i]) <==> Proper(ks, next, i) {
      FlawlessIsProper(ks, current, next, i, keys[i]);
    }
    if forall i | 0 <= i < |keys| :: Proper(ks, next, i) {
      forall i | 0 <= i < |next| ensures Normalized(ks, next[i]).Some? {
        assert Proper(ks, next, i);
      }
    }
  }

  lemma ExactOrder(ks: Keys, current: seq<Text>, next: seq<Text>, keys: seq<KeyReview>)
    requires |keys| == |next| && forall i | 0 <= i < |next| :: Reviews(ks, current, next, i, keys[i])
    ensures
      (|keys| == |current| && forall i | 0 <= i < |keys| ::
         keys[i].normalized.Some? && keys[i].normalized == NormalizedAll(ks, current)[i]) <==>
      NormalizedAll(ks, next) == NormalizedAll(ks, current) && forall i | 0 <= i < |next| :: Normalized(ks, next[i]).Some?
  {
    var ns, cs := NormalizedAll(ks, next), NormalizedAll(ks, current);
    forall i | 0 <= i < |keys| ensures keys[i].normalized == ns[i] {
      assert Reviews(ks, current, next, i, keys[i]);
    }
    if |keys| == |current| && forall i | 0 <= i < |keys| :: keys[i].normalized.Some? && keys[i].normalized == cs[i] {
      assert ns == cs;
      assert forall i | 0 <= i < |next| :: keys[i].normalized == Normalized(ks, next[i]);
    }
  }

  /** Every valid key is either retained or new, and an acceptable set has no flaw to count. */
  lemma {:induction false} ValidKeysAreRetainedOrNew(ks: Keys, current: seq<Text>, next: seq<Text>, keys: seq<KeyReview>)
    requires |keys| <= |next| && forall i | 0 <= i < |keys| :: Reviews(ks, current, next, i, keys[i])
    ensures Flag(keys, IsRetained) + Flag(keys, IsNew) == Flag(keys, (k: KeyReview) => k.valid)
  {
    if |keys| > 0 {
      var n := |keys| - 1;
      assert Reviews(ks, current, next, n, keys[n]);
      ValidKeysAreRetainedOrNew(ks, current, next, keys[..n]);
    }
  }

  /** validateParticipantRotation: it passes exactly the acceptable sets. */
  method ValidateParticipantRotation(ks: Keys, current: seq<Text>, next: seq<Text>) returns (r: Result<Review, RotationError>)
    ensures r.Success? <==> Acceptable(ks, current, next)
    ensures r.Success? ==> r.value.canBuild
  {
    if |next| != SignatureMerge.PARTICIPANT_COUNT {
      return Failure(WrongCount);
    }
    var review := InspectParticipantRotation(ks, current, next);
    VerdictIsAcceptable(ks, current, next, review.keys, review.exactCurrentOrder);
    if exists i | 0 <= i < |review.keys| :: review.keys[i].value == [] {
      return Failure(MissingKey);
    }
    if review.invalidCount > 0 {
      return Failure(InvalidKey);
    }
    if review.emptyCount > 0 {
      return Failure(EmptyKey);
    }
    if review.duplicateCount > 0 {
      return Failure(DuplicateKey);
    }
    if review.exactCurrentOrder {
      return Failure(UnchangedKeys);
    }
    r := Success(review);
  }
}
