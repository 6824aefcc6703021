/**
 Validation of one archive observation: the checks buildBatch applies to a block
 and an event entry, in the order it applies them.
 */
module Validation {
  import opened Wrappers
  import opened Texts
  import opened Json
  import opened Rows

  datatype Code =
    | InvalidBlockHeight
    | InvalidEventList
    | InvalidBlockTimestamp
    | InvalidBlockIdentity
    | InvalidEvent
    | InvalidAccountUpdateId
    | InvalidTransactionHash
    | InvalidTransactionSequence
    | InvalidAccountUpdateIds
    | InvalidEventData
    | UnresolvedAccountUpdate
    | InvalidEventIdentity
    | UnresolvedEventType
    | InvalidEventDiscriminator
    | IncompleteTransactionSequence
    | EventOutsideCompleteRange
    | ImmutableEventConflict

  /** The configured event types in lexical order, and Date parsing of non-numeric text. */
  datatype Env = Env(knownEventTypes: seq<Text>, isoMillis: Text -> Option<int>)

  const MAX_UINT32_NUMBER := 4_294_967_295
  const EPOCH_SECONDS_UPPER_BOUND := 100_000_000_000
  /** The largest time value of a JavaScript Date. */
  const MAX_TIME_VALUE := 8_640_000_000_000_000

  predicate IsAbsent(v: Value) {
    v.Null? || v.Undefined?
  }

  predicate IsSafeNatural(v: Value) {
    v.Int? && 0 <= v.n <= MAX_SAFE_INTEGER
  }

  predicate IsEpochOffset(t: Text) {
    (|t| > 0 && AllDigits(t)) || (|t| > 1 && t[0] == 45 && AllDigits(t[1..]))
  }

  function EpochOffset(t: Text): int
    requires IsEpochOffset(t)
  {
    if AllDigits(t) then DigitsValue(t) else 0 - DigitsValue(t[1..]) as int
  }

  function Abs(n: int): nat {
    if n < 0 then -n else n
  }

  function EpochOffsetToMilliseconds(offset: int): int {
    if Abs(offset) < EPOCH_SECONDS_UPPER_BOUND then offset * 1000 else offset
  }

  function ResolveBlockTimestamp(env: Env, v: Value): Result<Option<int>, Code> {
    if IsAbsent(v) || v == Str([]) then Success(None)
    else if !v.Str? || Trim(v.s) != v.s then Failure(InvalidBlockTimestamp)
    else if IsEpochOffset(v.s) then
      var millis := EpochOffsetToMilliseconds(EpochOffset(v.s));
      if Abs(millis) <= MAX_TIME_VALUE then Success(Some(millis)) else Failure(InvalidBlockTimestamp)
    else
      match env.isoMillis(v.s)
      case Some(millis) => Success(Some(millis))
      case None => Failure(InvalidBlockTimestamp)
  }

  function ResolveOptionalNonnegativeInteger(v: Value): (r: Result<Option<int>, Code>)
    ensures r.Success? ==> Nonnegative(r.value)
  {
    if IsAbsent(v) then Success(None)
    else if !IsSafeNatural(v) || v.n > MAX_UINT32_NUMBER then Failure(InvalidBlockIdentity)
    else Success(Some(v.n))
  }

  function ResolveOptionalNonemptyString(v: Value): (r: Result<Option<Text>, Code>)
    ensures r.Success? ==> Nonempty(r.value)
  {
    if IsAbsent(v) then Success(None)
    else if !v.Str? || v.s == [] || Trim(v.s) != v.s then Failure(InvalidBlockIdentity)
    else Success(Some(v.s))
  }

  function TransactionInfo(entry: Value): Value {
    Field(entry, Name("transactionInfo"))
  }

  function TransactionHash(entry: Value): Text {
    match Field(TransactionInfo(entry), Name("hash"))
    case Str(s) => Trim(s)
    case _ => []
  }

  function AccountUpdateIds(entry: Value): Value {
    Field(TransactionInfo(entry), Name("zkappAccountUpdateIds"))
  }

  predicate AllNaturals(vs: seq<Value>) {
    forall i | 0 <= i < |vs| :: IsSafeNatural(vs[i])
  }

  predicate AllStrings(vs: seq<Value>) {
    forall i | 0 <= i < |vs| :: vs[i].Str?
  }

  /** The entry names an account update and a transaction. */
  predicate IsIdentified(entry: Value) {
    IsNonnegativeDecimal(AccountUpdateIdOf(entry)) && TransactionHash(entry) != []
  }

  /** validateEventData: the first check that fails, if any. */
  function EventDataFault(entry: Value): (r: Option<Code>)
    ensures r.None? ==>
      && IsIdentified(entry)
      && AccountUpdateIds(entry).Arr?
      && ContractData(entry).Arr? && AllStrings(ContractData(entry).items)
  {
    var sequenceNumber := Field(TransactionInfo(entry), Name("sequenceNumber"));
    var ids, data := AccountUpdateIds(entry), ContractData(entry);
    if !entry.Obj? then Some(InvalidEvent)
    else if !IsNonnegativeDecimal(AccountUpdateIdOf(entry)) then Some(InvalidAccountUpdateId)
    else if TransactionHash(entry) == [] then Some(InvalidTransactionHash)
    else if !IsAbsent(sequenceNumber) && !IsSafeNatural(sequenceNumber) then Some(InvalidTransactionSequence)
    else if !ids.Arr? || !AllNaturals(ids.items) then Some(InvalidAccountUpdateIds)
    else if !data.Arr? || !AllStrings(data.items) then Some(InvalidEventData)
    else None
  }

  function IndexOf(ids: seq<Value>, id: int): (r: int)
    ensures -1 <= r < |ids|
    ensures r >= 0 ==> ids[r] == Int(id)
    ensures r < 0 ==> Int(id) !in ids
  {
    if |ids| == 0 then -1
    else if ids[0] == Int(id) then 0
    else
      var rest := IndexOf(ids[1..], id);
      if rest < 0 then -1 else rest + 1
  }

  function GetAccountUpdateIndex(entry: Value): (r: Result<int, Code>)
    requires EventDataFault(entry).None?
    ensures r.Success? ==> r.value >= 0
  {
    var id := DigitsValue(AccountUpdateIdOf(entry));
    if id > MAX_SAFE_INTEGER then Failure(InvalidAccountUpdateId)
    else
      var index := IndexOf(AccountUpdateIds(entry).items, id);
      if index < 0 then Failure(UnresolvedAccountUpdate) else Success(index)
  }

  function ResolveEventType(env: Env, entry: Value): (r: Result<Text, Code>)
    requires EventDataFault(entry).None?
    ensures r.Success? ==> r.value in env.knownEventTypes
  {
    var types := env.knownEventTypes;
    var data := ContractData(entry).items;
    if |types| == 1 then Success(types[0])
    else if |types| == 0 then Failure(UnresolvedEventType)
    else if data == [] || !IsNonnegativeDecimal(data[0].s) then Failure(InvalidEventDiscriminator)
    else if DigitsValue(data[0].s) >= |types| then Failure(UnresolvedEventType)
    else Success(types[DigitsValue(data[0].s)])
  }

  datatype BlockFields = BlockFields(
    timestamp: Option<int>, globalSlot: Option<int>,
    stateHash: Option<Text>, parentHash: Option<Text>, chainStatus: Option<Text>)

  function ResolveBlock(env: Env, blockInfo: Value): (r: Result<BlockFields, Code>)
    ensures r.Success? ==>
      && Nonnegative(r.value.globalSlot) && Nonempty(r.value.stateHash)
      && Nonempty(r.value.parentHash) && Nonempty(r.value.chainStatus)
  {
    match ResolveBlockTimestamp(env, Field(blockInfo, Name("timestamp")))
    case Failure(code) => Failure(code)
    case Success(timestamp) =>
    match ResolveOptionalNonnegativeInteger(Field(blockInfo, Name("globalSlotSinceGenesis")))
    case Failure(code) => Failure(code)
    case Success(slot) =>
    match ResolveOptionalNonemptyString(Field(blockInfo, Name("stateHash")))
    case Failure(code) => Failure(code)
    case Success(stateHash) =>
    match ResolveOptionalNonemptyString(Field(blockInfo, Name("parentHash")))
    case Failure(code) => Failure(code)
    case Success(parentHash) =>
    match ResolveOptionalNonemptyString(Field(blockInfo, Name("chainStatus")))
    case Failure(code) => Failure(code)
    case Success(chainStatus) => Success(BlockFields(timestamp, slot, stateHash, parentHash, chainStatus))
  }

  datatype EntryFields = EntryFields(identity: Identity, eventType: Text)

  function ResolveEntry(env: Env, entry: Value, eventIndex: Option<nat>): (r: Result<EntryFields, Code>)
    ensures r.Success? ==>
      && EventDataFault(entry).None?
      && r.value.identity.accountUpdateIndex >= 0
      && eventIndex == Some(r.value.identity.eventIndex)
      && r.value.eventType in env.knownEventTypes
  {
    if EventDataFault(entry).Some? then Failure(EventDataFault(entry).value)
    else
      match GetAccountUpdateIndex(entry)
      case Failure(code) => Failure(code)
      case Success(accountUpdateIndex) =>
        if eventIndex.None? then Failure(InvalidEventIdentity)
        else
          match ResolveEventType(env, entry)
          case Failure(code) => Failure(code)
          case Success(eventType) =>
            Success(EntryFields(Identity(TransactionHash(entry), accountUpdateIndex, eventIndex.value), eventType))
  }

  /** What an accepted entry writes. */
  datatype Observed = Observed(identity: Identity, columns: Columns)

  /** The try block of buildBatch for one entry. */
  function Validate(
    env: Env, status: Status, height: Option<int>, blockInfo: Value, entry: Value,
    eventIndex: Option<nat>, blockEventIndex: nat): Result<Observed, Code>
  {
    if height.None? then Failure(InvalidBlockHeight)
    else
      match ResolveBlock(env, blockInfo)
      case Failure(code) => Failure(code)
      case Success(block) =>
        match ResolveEntry(env, entry, eventIndex)
        case Failure(code) => Failure(code)
        case Success(fields) =>
          Success(Observed(
            fields.identity,
            ColumnsOf(status, height, block, fields.eventType, AccountUpdateIdOf(entry), blockEventIndex, Json.Canonical(entry))))
  }

  function ColumnsOf(
    status: Status, height: Option<int>, block: BlockFields, eventType: Text, accountUpdateId: Text,
    blockEventIndex: int, raw: Value): Columns
  {
    Columns(
      status, if status == Pending then height else None, height, block.timestamp, block.globalSlot,
      block.stateHash, block.parentHash, block.chainStatus, eventType, accountUpdateId, blockEventIndex, raw)
  }

  /** A payload in stored form whose contract data can be compared as text. */
  predicate StoredPayload(raw: Value) {
    Stored(raw) && ContractData(raw).Arr? && AllStrings(ContractData(raw).items)
  }

  /** The stages that an accepted entry has passed, and the columns they give. */
  lemma AcceptedEntryPassesStages(
    env: Env, status: Status, height: Option<int>, blockInfo: Value, entry: Value,
    eventIndex: Option<nat>, blockEventIndex: nat)
    requires Validate(env, status, height, blockInfo, entry, eventIndex, blockEventIndex).Success?
    ensures height.Some? && ResolveBlock(env, blockInfo).Success? && ResolveEntry(env, entry, eventIndex).Success?
    ensures
      var block, fields := ResolveBlock(env, blockInfo).value, ResolveEntry(env, entry, eventIndex).value;
      Validate(env, status, height, blockInfo, entry, eventIndex, blockEventIndex).value ==
      Observed(
        fields.identity,
        ColumnsOf(status, height, block, fields.eventType, AccountUpdateIdOf(entry), blockEventIndex, Json.Canonical(entry)))
  {
  }

  lemma ColumnsAreValid(
    status: Status, height: Option<int>, block: BlockFields, eventType: Text, entry: Value, blockEventIndex: nat)
    requires Nonnegative(height) && height.Some? && Nonnegative(block.globalSlot)
    requires Nonempty(block.stateHash) && Nonempty(block.parentHash) && Nonempty(block.chainStatus)
    requires AccountUpdateIdOf(Json.Canonical(entry)) == AccountUpdateIdOf(entry)
    ensures Valid(ColumnsOf(status, height, block, eventType, AccountUpdateIdOf(entry), blockEventIndex, Json.Canonical(entry)))
  {
  }

  /** An accepted entry satisfies everything the upsert relies on. */
  lemma ValidatedColumnsAreValid(
    env: Env, status: Status, height: Option<int>, blockInfo: Value, entry: Value,
    eventIndex: Option<nat>, blockEventIndex: nat)
    requires WellFormed(entry) && Nonnegative(height)
    requires Validate(env, status, height, blockInfo, entry, eventIndex, blockEventIndex).Success?
    ensures
      var r := Validate(env, status, height, blockInfo, entry, eventIndex, blockEventIndex).value;
      && Valid(r.columns) && StoredPayload(r.columns.rawEventData)
      && r.columns.status == status && r.columns.blockHeight == height && height.Some?
      && r.columns.pendingSeenAtHeight == (if status == Pending then height else None)
      && r.columns.eventType in env.knownEventTypes
      && eventIndex == Some(r.identity.eventIndex) && r.identity.accountUpdateIndex >= 0
  {
    AcceptedEntryPassesStages(env, status, height, blockInfo, entry, eventIndex, blockEventIndex);
    var block, fields := ResolveBlock(env, blockInfo).value, ResolveEntry(env, entry, eventIndex).value;
    PayloadIsStored(entry);
    ColumnsAreValid(status, height, block, fields.eventType, entry, blockEventIndex);
  }

  lemma PayloadIsStored(entry: Value)
    requires WellFormed(entry) && EventDataFault(entry).None?
    ensures StoredPayload(Json.Canonical(entry))
    ensures AccountUpdateIdOf(Json.Canonical(entry)) == AccountUpdateIdOf(entry)
  {
    var raw, data := Json.Canonical(entry), ContractData(entry);
    assert data.Arr? && AllStrings(data.items);
    assert Json.Canonical(data) == data && WellFormed(data) by { StringsAreCanonical(data.items); }
    assert ContractData(raw) == data by { FieldOfCanonical(entry, Name("data")); }
    var id := Field(entry, Name("accountUpdateId"));
    assert id.Str?;
    assert Field(raw, Name("accountUpdateId")) == id by { FieldOfCanonical(entry, Name("accountUpdateId")); }
  }

  lemma {:induction false} StringsAreCanonical(vs: seq<Value>)
    requires AllStrings(vs)
    ensures WellFormed(Arr(vs)) && CanonicalItems(vs) == vs
  {
    if |vs| > 0 {
      StringsAreCanonical(vs[1..]);
      assert vs == [vs[0]] + vs[1..];
    }
  }

  /** The key under which reserveEventIndex counts siblings, absent for an unidentifiable entry. */
  function SiblingKey(entry: Value): Option<Text> {
    if IsIdentified(entry) then Some(PairText(TransactionHash(entry), AccountUpdateIdOf(entry))) else None
  }

  function PairText(a: Text, b: Text): Text {
    StableJson(Arr([Str(a), Str(b)]))
  }

  lemma PairTextIsInjective(a: Text, b: Text, c: Text, d: Text)
    ensures PairText(a, b) == PairText(c, d) <==> a == c && b == d
  {
    var x, y := [Str(a), Str(b)], [Str(c), Str(d)];
    StableJsonIsExact(Arr(x), Arr(y));
    if PairText(a, b) == PairText(c, d) {
      assert Same(x[0], y[0]) && Same(x[1], y[1]);
    }
  }

  /** Two entries share a sibling key exactly when they name the same account update of the same transaction. */
  lemma SiblingKeyIsExact(a: Value, b: Value)
    requires IsIdentified(a) && IsIdentified(b)
    ensures SiblingKey(a) == SiblingKey(b) <==>
      TransactionHash(a) == TransactionHash(b) && AccountUpdateIdOf(a) == AccountUpdateIdOf(b)
  {
    PairTextIsInjective(TransactionHash(a), AccountUpdateIdOf(a), TransactionHash(b), AccountUpdateIdOf(b));
  }
}
