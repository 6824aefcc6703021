/** Merging signature packages: even packages merge in any order and grouping. */
module SignatureMerge {
  import opened Wrappers
  import opened Texts
  import opened Json

  const PARTICIPANT_COUNT := 5
  const PAYLOAD_FIELD_COUNT := 18

  /** The JSON text of each operation field, None where the field is absent. */
  type Payload = fields: seq<Option<Text>> | |fields| == PAYLOAD_FIELD_COUNT witness seq(PAYLOAD_FIELD_COUNT, _ => None)

  /** other: whatever else the object holds; it is neither compared nor merged. */
  datatype Package = Package(payload: Payload, signatures: seq<Option<Text>>, other: Value)

  datatype MergeError = DifferentField(field: nat) | ConflictingSignature(participant: nat)

  /** What assertOperationPackage establishes about the parts that merging looks at. */
  predicate Valid(p: Package) {
    && |p.signatures| == PARTICIPANT_COUNT
    && forall i | 0 <= i < PARTICIPANT_COUNT :: p.signatures[i].Some? ==> p.signatures[i].value != []
  }

  /** A slot beyond the list reads as undefined, which merging treats as null. */
  function Slot(p: Package, i: nat): Option<Text> {
    if i < |p.signatures| then p.signatures[i] else None
  }

  /** JavaScript truth of a slot: null and the empty string are false. */
  predicate Truthy(s: Option<Text>) {
    s.Some? && s.value != []
  }

  predicate Conflicts(a: Option<Text>, b: Option<Text>) {
    Truthy(a) && Truthy(b) && a != b
  }

  /** An empty string is present without being true: it wins over a signature it does not conflict with. */
  predicate Hides(a: Option<Text>, b: Option<Text>) {
    a == Some([]) && Truthy(b)
  }

  function MergeSlot(a: Option<Text>, b: Option<Text>): Option<Text> {
    if a.Some? then a else b
  }

  /** Two packages of one operation without a slot in conflict. */
  predicate MayMerge(a: Package, b: Package) {
    a.payload == b.payload && forall i | 0 <= i < |a.signatures| :: !Conflicts(a.signatures[i], Slot(b, i))
  }

  /** The merged package has the slots of the first one. */
  function MergeOf(a: Package, b: Package): Option<Package> {
    if MayMerge(a, b) then
      Some(a.(signatures := seq(|a.signatures|, i requires 0 <= i < |a.signatures| => MergeSlot(a.signatures[i], Slot(b, i)))))
    else None
  }

  /** The error names the first field that differs, or else the first slot in conflict. */
  ghost predicate Explains(e: MergeError, a: Package, b: Package) {
    match e
    case DifferentField(field) =>
      field < PAYLOAD_FIELD_COUNT && a.payload[..field] == b.payload[..field] && a.payload[field] != b.payload[field]
    case ConflictingSignature(participant) =>
      && a.payload == b.payload && participant < |a.signatures|
      && Conflicts(a.signatures[participant], Slot(b, participant))
      && forall i | 0 <= i < participant :: !Conflicts(a.signatures[i], Slot(b, i))
  }

  /** mergeOperationSignatures. */
  method Merge(current: Package, incoming: Package) returns (r: Result<Package, MergeError>)
    ensures r.Success? ==> MergeOf(current, incoming) == Some(r.value)
    ensures r.Success? ==>
      && r.value.payload == current.payload == incoming.payload && r.value.other == current.other
      && |r.value.signatures| == |current.signatures|
      && forall i | 0 <= i < |current.signatures| ::
           r.value.signatures[i] == if current.signatures[i].Some? then current.signatures[i] else Slot(incoming, i)
    ensures r.Failure? ==> MergeOf(current, incoming).None? && Explains(r.error, current, incoming)
  {
    for field := 0 to PAYLOAD_FIELD_COUNT
      invariant current.payload[..field] == incoming.payload[..field]
    {
      if current.payload[field] != incoming.payload[field] {
        return Failure(DifferentField(field));
      }
      assert current.payload[..field + 1] == current.payload[..field] + [current.payload[field]];
      assert incoming.payload[..field + 1] == incoming.payload[..field] + [incoming.payload[field]];
    }
    assert current.payload[..PAYLOAD_FIELD_COUNT] == current.payload && incoming.payload[..PAYLOAD_FIELD_COUNT] == incoming.payload;
    var signatures := [];
    for index := 0 to |current.signatures|
      invariant |signatures| == index
      invariant forall i | 0 <= i < index :: signatures[i] == MergeSlot(current.signatures[i], Slot(incoming, i))
      invariant forall i | 0 <= i < index :: !Conflicts(current.signatures[i], Slot(incoming, i))
    {
      if Conflicts(current.signatures[index], Slot(incoming, index)) {
        return Failure(ConflictingSignature(index));
      }
      signatures := signatures + [MergeSlot(current.signatures[index], Slot(incoming, index))];
    }
    r := Success(current.(signatures := signatures));
    assert MergeOf(current, incoming).value.signatures == signatures;
  }

  // ---------------------------------------------------------------- two packages, two orders

  /** Equally many slots, none of which one package holds empty and the other signed. */
  predicate Even(a: Package, b: Package) {
    && |a.signatures| == |b.signatures|
    && forall i | 0 <= i < |a.signatures| :: !Hides(a.signatures[i], b.signatures[i]) && !Hides(b.signatures[i], a.signatures[i])
  }

  /** Both orders fail or both succeed; they give the same signatures exactly for even packages. */
  lemma SwappingIsExact(a: Package, b: Package)
    ensures MergeOf(a, b).Some? <==> MergeOf(b, a).Some?
    ensures MergeOf(a, b).Some? ==>
      (MergeOf(a, b).value.signatures == MergeOf(b, a).value.signatures <==> Even(a, b))
  {
    if MayMerge(a, b) {
      assert forall i | 0 <= i < |b.signatures| && i < |a.signatures| :: !Conflicts(a.signatures[i], Slot(b, i));
      var r, s := MergeOf(a, b).value.signatures, MergeOf(b, a).value.signatures;
      forall i | 0 <= i < |a.signatures| && i < |b.signatures|
        ensures r[i] == s[i] <==> !Hides(a.signatures[i], b.signatures[i]) && !Hides(b.signatures[i], a.signatures[i])
      {
        assert !Conflicts(a.signatures[i], Slot(b, i));
      }
    }
  }

  /** An empty slot with a signature against it, in packages assertOperationPackage refuses. */
  lemma EmptySignatureBreaksOrder(payload: Payload, signature: Text) returns (empty: Package, signed: Package)
    requires signature != []
    ensures |empty.signatures| == |signed.signatures| == PARTICIPANT_COUNT && empty.payload == signed.payload == payload
    ensures MergeOf(empty, signed).Some? && MergeOf(empty, signed).value.signatures[0] == Some([])
    ensures MergeOf(signed, empty).Some? && MergeOf(signed, empty).value.signatures[0] == Some(signature)
  {
    empty := Package(payload, [Some([]), None, None, None, None], Null);
    signed := Package(payload, [Some(signature), None, None, None, None], Null);
  }

  // ---------------------------------------------------------------- any order, any grouping

  /** A way to merge a collection of packages. */
  datatype Plan = One(package: Package) | Both(left: Plan, right: Plan)

  function Leaves(plan: Plan): multiset<Package> {
    match plan
    case One(p) => multiset{p}
    case Both(left, right) => Leaves(left) + Leaves(right)
  }

  function Packages(plan: Plan): set<Package> {
    match plan
    case One(p) => {p}
    case Both(left, right) => Packages(left) + Packages(right)
  }

  lemma {:induction false} PackagesAreLeaves(plan: Plan)
    ensures forall p :: p in Packages(plan) <==> p in Leaves(plan)
  {
    if plan.Both? {
      PackagesAreLeaves(plan.left);
      PackagesAreLeaves(plan.right);
    }
  }

  /** Merging along the plan; None when some merge throws. */
  function Evaluate(plan: Plan): Option<Package> {
    match plan
    case One(p) => Some(p)
    case Both(left, right) =>
      var a, b := Evaluate(left), Evaluate(right);
      if a.Some? && b.Some? then MergeOf(a.value, b.value) else None
  }

  /** Any two of the packages are even. */
  ghost predicate AllEven(ps: set<Package>) {
    forall p, q | p in ps && q in ps :: Even(p, q)
  }

  lemma ValidPackagesAreEven(ps: set<Package>)
    requires forall p | p in ps :: Valid(p)
    ensures AllEven(ps)
  {
  }

  /** The packages belong to one operation and agree wherever two of them have a slot filled. */
  ghost predicate Agree(ps: set<Package>) {
    forall p, q | p in ps && q in ps :: p.payload == q.payload && SameWhereFilled(p, q)
  }

  predicate SameWhereFilled(p: Package, q: Package) {
    && |p.signatures| == |q.signatures|
    && forall i | 0 <= i < |p.signatures| :: p.signatures[i].Some? && q.signatures[i].Some? ==> p.signatures[i] == q.signatures[i]
  }

  /** r is the operation of the packages with, in every slot, the signature any of them has there. */
  ghost predicate IsUnion(ps: set<Package>, r: Package) {
    && (forall p | p in ps :: p.payload == r.payload && KeepsSignatures(p, r))
    && (forall i | 0 <= i < |r.signatures| && r.signatures[i].Some? :: exists p | p in ps :: FillsAs(p, r, i))
  }

  predicate FillsAs(p: Package, r: Package, i: nat)
    requires i < |r.signatures|
  {
    |p.signatures| == |r.signatures| && p.signatures[i] == r.signatures[i]
  }

  /** No signature of p is lost or changed. */
  predicate KeepsSignatures(p: Package, r: Package) {
    |p.signatures| == |r.signatures| && forall i | 0 <= i < |p.signatures| :: p.signatures[i].Some? ==> r.signatures[i] == p.signatures[i]
  }

  lemma UnionAgrees(ps: set<Package>, r: Package)
    requires IsUnion(ps, r)
    ensures Agree(ps)
  {
    forall p, q | p in ps && q in ps ensures p.payload == q.payload && SameWhereFilled(p, q) {
      assert KeepsSignatures(p, r) && KeepsSignatures(q, r);
    }
  }

  /** Where one union has a signature the other has the same one. */
  lemma UnionsMatch(ps: set<Package>, r: Package, s: Package, i: nat)
    requires IsUnion(ps, r) && IsUnion(ps, s) && i < |r.signatures| == |s.signatures|
    ensures r.signatures[i].Some? ==> s.signatures[i] == r.signatures[i]
  {
    if r.signatures[i].Some? {
      var q :| q in ps && FillsAs(q, r, i);
      assert KeepsSignatures(q, s);
    }
  }

  lemma UnionIsUnique(ps: set<Package>, r: Package, s: Package)
    requires ps != {} && IsUnion(ps, r) && IsUnion(ps, s)
    ensures r.payload == s.payload && r.signatures == s.signatures
  {
    var p :| p in ps;
    assert KeepsSignatures(p, r) && KeepsSignatures(p, s);
    forall i | 0 <= i < |r.signatures| ensures r.signatures[i] == s.signatures[i] {
      UnionsMatch(ps, r, s, i);
      UnionsMatch(ps, s, r, i);
    }
  }

  /** Unions over even packages are even themselves. */
  lemma UnionsAreEven(xs: set<Package>, ys: set<Package>, a: Package, b: Package)
    requires IsUnion(xs, a) && IsUnion(ys, b) && AllEven(xs + ys) && xs != {} && ys != {}
    ensures Even(a, b)
  {
    var x :| x in xs;
    var y :| y in ys;
    assert KeepsSignatures(x, a) && KeepsSignatures(y, b) && Even(x, y);
    forall i | 0 <= i < |a.signatures|
      ensures !Hides(a.signatures[i], b.signatures[i]) && !Hides(b.signatures[i], a.signatures[i])
    {
      if a.signatures[i].Some? && b.signatures[i].Some? {
        var p :| p in xs && FillsAs(p, a, i);
        var q :| q in ys && FillsAs(q, b, i);
        assert Even(p, q);
      }
    }
  }

  lemma MergeKeeps(a: Package, b: Package)
    requires Even(a, b) && MergeOf(a, b).Some?
    ensures KeepsSignatures(a, MergeOf(a, b).value) && KeepsSignatures(b, MergeOf(a, b).value)
  {
    forall i | 0 <= i < |b.signatures| && b.signatures[i].Some? ensures MergeOf(a, b).value.signatures[i] == b.signatures[i] {
      assert !Conflicts(a.signatures[i], Slot(b, i));
    }
  }

  lemma MergeIsUnion(xs: set<Package>, ys: set<Package>, a: Package, b: Package)
    requires IsUnion(xs, a) && IsUnion(ys, b) && Even(a, b) && MergeOf(a, b).Some?
    ensures IsUnion(xs + ys, MergeOf(a, b).value)
  {
    var r := MergeOf(a, b).value;
    MergeKeeps(a, b);
    forall p | p in xs + ys ensures p.payload == r.payload && KeepsSignatures(p, r) {
      if p in xs { assert KeepsSignatures(p, a); } else { assert KeepsSignatures(p, b); }
    }
    forall i | 0 <= i < |r.signatures| && r.signatures[i].Some? ensures exists p | p in xs + ys :: FillsAs(p, r, i) {
      if a.signatures[i].Some? {
        var p :| p in xs && FillsAs(p, a, i);
        assert p in xs + ys && FillsAs(p, r, i);
      } else {
        var p :| p in ys && FillsAs(p, b, i);
        assert p in xs + ys && FillsAs(p, r, i);
      }
    }
  }

  lemma PartsAgree(xs: set<Package>, ys: set<Package>)
    requires Agree(xs + ys)
    ensures Agree(xs) && Agree(ys)
  {
    assert forall p | p in xs :: p in xs + ys;
    assert forall p | p in ys :: p in xs + ys;
  }

  lemma AgreeingUnionsMerge(xs: set<Package>, ys: set<Package>, a: Package, b: Package)
    requires IsUnion(xs, a) && IsUnion(ys, b) && Agree(xs + ys) && xs != {} && ys != {}
    ensures MayMerge(a, b)
  {
    var x :| x in xs;
    var y :| y in ys;
    assert x in xs + ys && y in xs + ys && KeepsSignatures(x, a) && KeepsSignatures(y, b);
    forall i | 0 <= i < |a.signatures| ensures !Conflicts(a.signatures[i], Slot(b, i)) {
      if a.signatures[i].Some? && b.signatures[i].Some? {
        var p :| p in xs && FillsAs(p, a, i);
        var q :| q in ys && FillsAs(q, b, i);
        assert p in xs + ys && q in xs + ys && SameWhereFilled(p, q);
      }
    }
  }

  /** Merging even packages succeeds exactly when they agree, and then gives their union. */
  lemma {:induction false} EvaluationIsUnion(plan: Plan)
    requires AllEven(Packages(plan))
    ensures Packages(plan) != {}
    ensures Evaluate(plan).Some? <==> Agree(Packages(plan))
    ensures Evaluate(plan).Some? ==> IsUnion(Packages(plan), Evaluate(plan).value)
  {
    match plan
    case One(p) => assert p in Packages(plan) && FillsSelf(p);
    case Both(left, right) =>
      PartsAreEven(Packages(left), Packages(right));
      EvaluationIsUnion(left);
      EvaluationIsUnion(right);
      BothIsUnion(Packages(left), Packages(right), Evaluate(left), Evaluate(right));
  }

  predicate FillsSelf(p: Package) {
    forall i | 0 <= i < |p.signatures| :: FillsAs(p, p, i)
  }

  lemma PartsAreEven(xs: set<Package>, ys: set<Package>)
    requires AllEven(xs + ys)
    ensures AllEven(xs) && AllEven(ys)
  {
    assert forall p | p in xs :: p in xs + ys;
    assert forall p | p in ys :: p in xs + ys;
  }

  lemma BothIsUnion(xs: set<Package>, ys: set<Package>, a: Option<Package>, b: Option<Package>)
    requires xs != {} && ys != {} && AllEven(xs + ys) && (a.Some? <==> Agree(xs)) && (b.Some? <==> Agree(ys))
    requires a.Some? ==> IsUnion(xs, a.value)
    requires b.Some? ==> IsUnion(ys, b.value)
    ensures
      var r := if a.Some? && b.Some? then MergeOf(a.value, b.value) else None;
      && (r.Some? <==> Agree(xs + ys))
      && (r.Some? ==> IsUnion(xs + ys, r.value))
  {
    if Agree(xs + ys) {
      PartsAgree(xs, ys);
      AgreeingUnionsMerge(xs, ys, a.value, b.value);
    }
    if a.Some? && b.Some? && MergeOf(a.value, b.value).Some? {
      UnionsAreEven(xs, ys, a.value, b.value);
      MergeIsUnion(xs, ys, a.value, b.value);
      UnionAgrees(xs + ys, MergeOf(a.value, b.value).value);
    }
  }

  /** Two merges fail alike, or give the same operation with the same signatures. */
  predicate SameOutcome(a: Option<Package>, b: Option<Package>) {
    (a.Some? <==> b.Some?) && (a.Some? ==> a.value.payload == b.value.payload && a.value.signatures == b.value.signatures)
  }

  /** Order-free merging: however the same even packages are ordered, grouped or repeated, the outcome is one. */
  lemma OrderAndGroupingDoNotMatter(one: Plan, two: Plan)
    requires AllEven(Packages(one)) && Packages(one) == Packages(two)
    ensures SameOutcome(Evaluate(one), Evaluate(two))
  {
    EvaluationIsUnion(one);
    EvaluationIsUnion(two);
    if Evaluate(one).Some? {
      UnionIsUnique(Packages(one), Evaluate(one).value, Evaluate(two).value);
    }
  }

  lemma FirstKeeps(p: Package, a: Package, b: Package)
    requires KeepsSignatures(p, a) && MergeOf(a, b).Some?
    ensures KeepsSignatures(p, MergeOf(a, b).value)
  {
  }

  /** The packages of a plan in an order that starts with p, whose slots then decide. */
  lemma {:induction false} StartWith(plan: Plan, p: Package) returns (other: Plan)
    requires p in Packages(plan)
    ensures Leaves(other) == Leaves(plan)
    ensures Evaluate(other).Some? ==> KeepsSignatures(p, Evaluate(other).value)
  {
    match plan
    case One(_) => other := plan;
    case Both(left, right) =>
      var atLeft := p in Packages(left);
      var first := StartWith(if atLeft then left else right, p);
      var rest := if atLeft then right else left;
      other := Both(first, rest);
      if Evaluate(other).Some? { FirstKeeps(p, Evaluate(first).value, Evaluate(rest).value); }
  }

  /** Every way to merge these packages, each as often as it occurs, has the outcome of this one. */
  ghost predicate OrderFree(plan: Plan) {
    forall other: Plan | Leaves(other) == Leaves(plan) :: SameOutcome(Evaluate(plan), Evaluate(other))
  }

  lemma EvenIsOrderFree(plan: Plan)
    requires AllEven(Packages(plan))
    ensures OrderFree(plan)
  {
    forall other: Plan | Leaves(other) == Leaves(plan) ensures SameOutcome(Evaluate(plan), Evaluate(other)) {
      PackagesAreLeaves(plan);
      PackagesAreLeaves(other);
      OrderAndGroupingDoNotMatter(plan, other);
    }
  }

  /** Two packages whose slots both survive in one list are even. */
  lemma KeptTogetherIsEven(p: Package, q: Package, r: Package)
    requires KeepsSignatures(p, r) && KeepsSignatures(q, r)
    ensures Even(p, q)
  {
  }

  lemma OrderFreeIsEven(plan: Plan, p: Package, q: Package)
    requires OrderFree(plan) && Evaluate(plan).Some? && p in Packages(plan) && q in Packages(plan)
    ensures Even(p, q)
  {
    var one := StartWith(plan, p);
    assert SameOutcome(Evaluate(plan), Evaluate(one));
    var two := StartWith(plan, q);
    assert SameOutcome(Evaluate(plan), Evaluate(two));
    KeptTogetherIsEven(p, q, Evaluate(plan).value);
  }

  /** No order and grouping of the packages of the plan merges them. */
  ghost predicate AlwaysFails(plan: Plan) {
    forall other: Plan | Leaves(other) == Leaves(plan) :: Evaluate(other).None?
  }

  /** For all packages, valid or not: the order is free exactly if they are even, or fail in every order. */
  lemma OrderMattersExactlyWhenUneven(plan: Plan)
    ensures OrderFree(plan) <==> AllEven(Packages(plan)) || AlwaysFails(plan)
  {
    if AllEven(Packages(plan)) { EvenIsOrderFree(plan); }
    if OrderFree(plan) && !AlwaysFails(plan) {
      assert Evaluate(plan).Some?;
      forall p, q | p in Packages(plan) && q in Packages(plan) ensures Even(p, q) {
        OrderFreeIsEven(plan, p, q);
      }
    }
  }

  /** Merging a package into a result that already contains it changes nothing, and loses nothing. */
  lemma MergingAgainChangesNothing(plan: Plan, p: Package)
    requires AllEven(Packages(plan)) && p in Packages(plan) && Evaluate(plan).Some?
    ensures Evaluate(Both(plan, One(p))) == Evaluate(plan)
    ensures KeepsSignatures(p, Evaluate(plan).value)
  {
    EvaluationIsUnion(plan);
    var r := Evaluate(plan).value;
    assert p.payload == r.payload && KeepsSignatures(p, r);
    assert MergeOf(r, p).Some? && MergeOf(r, p).value.signatures == r.signatures;
  }
}
