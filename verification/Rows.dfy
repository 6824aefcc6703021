/** One row of archive_events: the ON CONFLICT rule and the trigger condition. */
module Rows {
  import opened Wrappers
  import opened Texts
  import opened Json

  datatype Status = Pending | Canonical | Orphaned

  /** The unique key (tx_hash, account_update_index, event_index). */
  datatype Identity = Identity(txHash: Text, accountUpdateIndex: int, eventIndex: int)

  /** The non-key columns. rawEventData is jsonb, so it holds a canonical value. */
  datatype Columns = Columns(
    status: Status,
    pendingSeenAtHeight: Option<int>,
    blockHeight: Option<int>,
    blockTimestamp: Option<int>,
    globalSlot: Option<int>,
    stateHash: Option<Text>,
    parentHash: Option<Text>,
    chainStatus: Option<Text>,
    eventType: Text,
    accountUpdateId: Text,
    blockEventIndex: int,
    rawEventData: Value)

  /** Property names, as code units. */
  function Name(s: string): Text {
    seq(|s|, i requires 0 <= i < |s| => s[i] as int % 0x1_0000)
  }

  /** record[key], or undefined when the value is no object or lacks the key. */
  function Field(v: Value, key: Text): Value {
    if v.Obj? && key in Keys(v.members) then v.members[IndexOfKey(v.members, key)].value else Undefined
  }

  /** A property reads as the value of the member with its name; without one it is undefined. */
  lemma FieldIsTheMember(ms: seq<Member>, key: Text)
    requires DistinctKeys(ms)
    ensures forall i | 0 <= i < |ms| && ms[i].key == key :: Field(Obj(ms), key) == ms[i].value
    ensures (forall i | 0 <= i < |ms| :: ms[i].key != key) ==> Field(Obj(ms), key) == Undefined
  {
    if i :| 0 <= i < |ms| && ms[i].key == key {
      assert Keys(ms)[i] == key;
    }
  }

  lemma FieldOfCanonical(v: Value, key: Text)
    requires WellFormed(v)
    ensures Field(Json.Canonical(v), key) == Json.Canonical(Field(v, key))
  {
    if v.Obj? {
      var ms, ks := v.members, SortedKeys(v.members);
      var cs := CanonicalMembers(ms, ks);
      SortedKeysAreIncreasing(ms);
      assert Keys(cs) == ks;
    }
  }

  /** The account update id an archive payload names. */
  function AccountUpdateIdOf(raw: Value): Text {
    match Field(raw, Name("accountUpdateId"))
    case Str(s) => Trim(s)
    case _ => []
  }

  function ContractData(raw: Value): Value {
    Field(raw, Name("data"))
  }

  predicate Nonnegative(n: Option<int>) {
    n.Some? ==> n.value >= 0
  }

  predicate Nonempty(t: Option<Text>) {
    t.Some? ==> t.value != []
  }

  /** What batch validation establishes about every column of an accepted row. */
  predicate Valid(c: Columns) {
    && ValidEncodings(c)
    && c.accountUpdateId == AccountUpdateIdOf(c.rawEventData)
    && (c.status == Pending ==> c.pendingSeenAtHeight.Some?)
  }

  /** The NULL stand-ins -1 and '' of the ON CONFLICT rule are not column values. */
  predicate ValidEncodings(c: Columns) {
    && Nonnegative(c.pendingSeenAtHeight)
    && Nonnegative(c.blockHeight)
    && Nonnegative(c.globalSlot)
    && Nonempty(c.stateHash)
    && Nonempty(c.parentHash)
    && Nonempty(c.chainStatus)
  }

  // ---------------------------------------------------------------- ON CONFLICT

  function CoalesceInt(n: Option<int>): int {
    if n.Some? then n.value else -1
  }

  function CoalesceText(t: Option<Text>): Text {
    if t.Some? then t.value else []
  }

  /** The stored row is canonical and the observation is not. */
  predicate KeepsStored(stored: Columns, incoming: Columns) {
    stored.status == Canonical && incoming.status != Canonical
  }

  function NextPendingSeen(stored: Columns, incoming: Columns): Option<int> {
    if incoming.status == Pending && stored.status == Orphaned then incoming.pendingSeenAtHeight
    else if incoming.status == Pending then
      if stored.pendingSeenAtHeight.Some? then stored.pendingSeenAtHeight else incoming.pendingSeenAtHeight
    else stored.pendingSeenAtHeight
  }

  /** The WHERE clause: event type and contract data are immutable. */
  predicate ConflictGuard(stored: Columns, incoming: Columns) {
    && stored.eventType == incoming.eventType
    && ContractData(stored.rawEventData) == ContractData(incoming.rawEventData)
  }

  /** The SET clause for every column but updated_at. */
  function Merge(stored: Columns, incoming: Columns): Columns {
    Columns(
      if stored.status == Canonical then Canonical
      else if incoming.status == Canonical then Canonical
      else incoming.status,
      if KeepsStored(stored, incoming) then stored.pendingSeenAtHeight else NextPendingSeen(stored, incoming),
      if KeepsStored(stored, incoming) then stored.blockHeight else incoming.blockHeight,
      if KeepsStored(stored, incoming) then stored.blockTimestamp else incoming.blockTimestamp,
      if KeepsStored(stored, incoming) then stored.globalSlot else incoming.globalSlot,
      if KeepsStored(stored, incoming) then stored.stateHash else incoming.stateHash,
      if KeepsStored(stored, incoming) then stored.parentHash else incoming.parentHash,
      if KeepsStored(stored, incoming) then stored.chainStatus else incoming.chainStatus,
      stored.eventType,
      if KeepsStored(stored, incoming) then stored.accountUpdateId else incoming.accountUpdateId,
      if KeepsStored(stored, incoming) then stored.blockEventIndex else incoming.blockEventIndex,
      if KeepsStored(stored, incoming) then stored.rawEventData else incoming.rawEventData)
  }

  /** The SET clause for updated_at: whether it becomes NOW(). */
  predicate Touches(stored: Columns, incoming: Columns) {
    && !KeepsStored(stored, incoming)
    && (|| stored.status != incoming.status
        || CoalesceInt(stored.pendingSeenAtHeight) != CoalesceInt(NextPendingSeen(stored, incoming))
        || CoalesceInt(stored.blockHeight) != CoalesceInt(incoming.blockHeight)
        || (stored.blockTimestamp.None? && incoming.blockTimestamp.Some?)
        || (stored.blockTimestamp.Some? && incoming.blockTimestamp.None?)
        || (stored.blockTimestamp.Some? && incoming.blockTimestamp.Some? && stored.blockTimestamp != incoming.blockTimestamp)
        || CoalesceInt(stored.globalSlot) != CoalesceInt(incoming.globalSlot)
        || CoalesceText(stored.stateHash) != CoalesceText(incoming.stateHash)
        || CoalesceText(stored.parentHash) != CoalesceText(incoming.parentHash)
        || CoalesceText(stored.chainStatus) != CoalesceText(incoming.chainStatus)
        || stored.blockEventIndex != incoming.blockEventIndex
        || stored.rawEventData != incoming.rawEventData)
  }

  /** The row trigger: some tracked column IS DISTINCT FROM its old value. */
  predicate TriggerFires(stored: Columns, new_: Columns) {
    || new_.status != stored.status
    || new_.pendingSeenAtHeight != stored.pendingSeenAtHeight
    || new_.blockHeight != stored.blockHeight
    || new_.blockTimestamp != stored.blockTimestamp
    || new_.globalSlot != stored.globalSlot
    || new_.stateHash != stored.stateHash
    || new_.parentHash != stored.parentHash
    || new_.chainStatus != stored.chainStatus
    || new_.eventType != stored.eventType
    || new_.accountUpdateId != stored.accountUpdateId
    || new_.blockEventIndex != stored.blockEventIndex
    || new_.rawEventData != stored.rawEventData
  }

  /** A row that differs at most in its account update id. */
  predicate SameButAccountUpdateId(a: Columns, b: Columns) {
    a.(accountUpdateId := b.accountUpdateId) == b
  }

  /** For rows free of the NULL stand-ins, updated_at sees every column but account_update_id. */
  lemma TouchSeesAllButAccountUpdateId(stored: Columns, incoming: Columns)
    requires ValidEncodings(stored) && ValidEncodings(incoming)
    requires ConflictGuard(stored, incoming)
    ensures Touches(stored, incoming) <==> !SameButAccountUpdateId(Merge(stored, incoming), stored)
  {
    CoalesceIsExact(stored.pendingSeenAtHeight, NextPendingSeen(stored, incoming));
    CoalesceIsExact(stored.blockHeight, incoming.blockHeight);
    CoalesceIsExact(stored.globalSlot, incoming.globalSlot);
  }

  lemma CoalesceIsExact(a: Option<int>, b: Option<int>)
    requires Nonnegative(a) && Nonnegative(b)
    ensures CoalesceInt(a) == CoalesceInt(b) <==> a == b
  {
  }

  /**
   On validated rows updated_at is touched exactly when a stored column changes,
   which is exactly when the trigger draws a new change sequence.
   */
  lemma TouchIsExact(stored: Columns, incoming: Columns)
    requires Valid(stored) && Valid(incoming) && ConflictGuard(stored, incoming)
    ensures Touches(stored, incoming) <==> Merge(stored, incoming) != stored
    ensures Touches(stored, incoming) <==> TriggerFires(stored, Merge(stored, incoming))
    ensures Valid(Merge(stored, incoming))
  {
    TouchSeesAllButAccountUpdateId(stored, incoming);
  }

  /**
   The payload has to imply the id: for rows without one, which buildBatch never makes,
   a renumbered id alone would be stored but not dated.
   */
  lemma UnderivedAccountUpdateIdIsNotDated() returns (stored: Columns, incoming: Columns)
    ensures ValidEncodings(stored) && ValidEncodings(incoming) && ConflictGuard(stored, incoming)
    ensures !Touches(stored, incoming) && TriggerFires(stored, Merge(stored, incoming))
  {
    stored := Columns(Canonical, None, Some(7), None, None, None, None, None, [], [ZERO], 0, Null);
    incoming := stored.(accountUpdateId := [NINE]);
  }

  /** Observing the same thing again stores nothing new. */
  lemma MergeIsIdempotent(stored: Columns, incoming: Columns)
    requires Valid(stored) && Valid(incoming) && ConflictGuard(stored, incoming)
    ensures Merge(Merge(stored, incoming), incoming) == Merge(stored, incoming)
    ensures !Touches(Merge(stored, incoming), incoming)
    ensures ConflictGuard(Merge(stored, incoming), incoming)
  {
    TouchIsExact(Merge(stored, incoming), incoming);
  }

  /** What no observation can change, and who may change a canonical row. */
  lemma MergeRespectsLifecycle(stored: Columns, incoming: Columns)
    requires ConflictGuard(stored, incoming)
    ensures Merge(stored, incoming).eventType == stored.eventType
    ensures ContractData(Merge(stored, incoming).rawEventData) == ContractData(stored.rawEventData)
    ensures stored.status == Canonical ==> Merge(stored, incoming).status == Canonical
    ensures stored.status == Canonical && incoming.status != Canonical ==> Merge(stored, incoming) == stored
    ensures Merge(stored, incoming).status == Pending ==> incoming.status == Pending
  {
  }

  // ---------------------------------------------------------------- identity text

  function EventIdentity(id: Identity): Text {
    StableJson(Arr([Str(id.txHash), Int(id.accountUpdateIndex), Int(id.eventIndex)]))
  }

  /** Different events never share an identity text. */
  lemma EventIdentityIsInjective(a: Identity, b: Identity)
    ensures EventIdentity(a) == EventIdentity(b) <==> a == b
  {
    var x := [Str(a.txHash), Int(a.accountUpdateIndex), Int(a.eventIndex)];
    var y := [Str(b.txHash), Int(b.accountUpdateIndex), Int(b.eventIndex)];
    StableJsonIsExact(Arr(x), Arr(y));
    if EventIdentity(a) == EventIdentity(b) {
      assert Same(x[0], y[0]) && Same(x[1], y[1]) && Same(x[2], y[2]);
    }
  }

  /** immutableEventMatches: identity, event type and the text of the contract data. */
  predicate ImmutableMatches(id: Identity, existing: Columns, otherId: Identity, incoming: Columns) {
    && EventIdentity(id) == EventIdentity(otherId)
    && existing.eventType == incoming.eventType
    && StableJson(ContractData(existing.rawEventData)) == StableJson(ContractData(incoming.rawEventData))
  }

  /** A stored payload: canonical, and with canonical, well-formed contract data. */
  predicate Stored(raw: Value) {
    && WellFormed(ContractData(raw))
    && Json.Canonical(ContractData(raw)) == ContractData(raw)
  }

  /** The program's textual check and the database's WHERE clause decide the same thing. */
  lemma ImmutableMatchesIsExact(id: Identity, existing: Columns, otherId: Identity, incoming: Columns)
    requires Stored(existing.rawEventData) && Stored(incoming.rawEventData)
    ensures ImmutableMatches(id, existing, otherId, incoming) <==> id == otherId && ConflictGuard(existing, incoming)
  {
    var d, e := ContractData(existing.rawEventData), ContractData(incoming.rawEventData);
    EventIdentityIsInjective(id, otherId);
    StableJsonIsExact(d, e);
    CanonicalDecidesSame(d, e);
  }
}
