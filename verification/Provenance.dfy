/** Where an accepted row comes from: which entries are accepted, and which field each column reports. */
module Provenance {
  import opened Wrappers
  import opened Texts
  import opened Json
  import opened Rows
  import opened Validation
  import opened BlockOrder
  import opened Batches
  import opened ArrivalOrder

  /** A path of two property names. */
  function At(v: Value, outer: string, inner: string): Value {
    Field(Field(v, Name(outer)), Name(inner))
  }

  /** The text of a field, if it holds one. */
  function TextIn(v: Value, key: string): Option<Text> {
    match Field(v, Name(key))
    case Str(s) => Some(s)
    case _ => None
  }

  function NumberIn(v: Value, key: string): Option<int> {
    match Field(v, Name(key))
    case Int(n) => Some(n)
    case _ => None
  }

  // ---------------------------------------------------------------- which entries are accepted

  predicate Missing(v: Value) {
    v == Null || v == Undefined
  }

  /** No text, or one without white space at its ends. */
  predicate GoodText(v: Value) {
    Missing(v) || (v.Str? && v.s != [] && Trim(v.s) == v.s)
  }

  predicate GoodNatural(v: Value, max: int) {
    v.Int? && 0 <= v.n <= max
  }

  /** Seconds below a hundred thousand million, milliseconds from there on. */
  function EpochMillis(offset: int): int {
    if -100_000_000_000 < offset < 100_000_000_000 then 1000 * offset else offset
  }

  /** The milliseconds of a timestamp field; no timestamp is fine, and so is the empty text. */
  function Millis(env: Env, v: Value): Result<Option<int>, ()> {
    if Missing(v) || v == Str([]) then Success(None)
    else if !v.Str? || Trim(v.s) != v.s then Failure(())
    else if AllDigits(v.s) then InRangeOfDate(EpochMillis(DigitsValue(v.s)))
    else if |v.s| > 1 && v.s[0] == 45 && AllDigits(v.s[1..]) then InRangeOfDate(EpochMillis(0 - DigitsValue(v.s[1..])))
    else if env.isoMillis(v.s).Some? then Success(env.isoMillis(v.s))
    else Failure(())
  }

  function InRangeOfDate(millis: int): Result<Option<int>, ()> {
    if -8_640_000_000_000_000 <= millis <= 8_640_000_000_000_000 then Success(Some(millis)) else Failure(())
  }

  predicate GoodBlock(env: Env, blockInfo: Value) {
    && Millis(env, Field(blockInfo, Name("timestamp"))).Success?
    && (var slot := Field(blockInfo, Name("globalSlotSinceGenesis")); Missing(slot) || GoodNatural(slot, 4_294_967_295))
    && GoodText(Field(blockInfo, Name("stateHash")))
    && GoodText(Field(blockInfo, Name("parentHash")))
    && GoodText(Field(blockInfo, Name("chainStatus")))
  }

  predicate GoodNaturals(vs: seq<Value>) {
    forall i | 0 <= i < |vs| :: GoodNatural(vs[i], 9_007_199_254_740_991)
  }

  predicate GoodStrings(vs: seq<Value>) {
    forall i | 0 <= i < |vs| :: vs[i].Str?
  }

  /** The shape an event entry needs. */
  predicate GoodEntry(entry: Value) {
    && entry.Obj?
    && (var id := TextIn(entry, "accountUpdateId"); id.Some? && IsNonnegativeDecimal(Trim(id.value)))
    && (var hash := At(entry, "transactionInfo", "hash"); hash.Str? && Trim(hash.s) != [])
    && (var n := At(entry, "transactionInfo", "sequenceNumber"); Missing(n) || GoodNatural(n, 9_007_199_254_740_991))
    && (var ids := At(entry, "transactionInfo", "zkappAccountUpdateIds"); ids.Arr? && GoodNaturals(ids.items))
    && (var data := Field(entry, Name("data")); data.Arr? && GoodStrings(data.items))
  }

  function IdNumber(entry: Value): nat
    requires GoodEntry(entry)
  {
    DigitsValue(Trim(TextIn(entry, "accountUpdateId").value))
  }

  /** Its account update is listed in the transaction, and its first datum picks an event type where there are several. */
  predicate Resolvable(env: Env, entry: Value)
    requires GoodEntry(entry)
  {
    var ids, data, types := At(entry, "transactionInfo", "zkappAccountUpdateIds").items, Field(entry, Name("data")).items, env.knownEventTypes;
    && IdNumber(entry) <= 9_007_199_254_740_991 && Int(IdNumber(entry)) in ids
    && (|types| == 1 || (|data| > 0 && IsNonnegativeDecimal(data[0].s) && DigitsValue(data[0].s) < |types|))
  }

  lemma TextFieldIsGood(v: Value)
    ensures ResolveOptionalNonemptyString(v).Success? <==> GoodText(v)
    ensures GoodText(v) ==> ResolveOptionalNonemptyString(v).value == match v case Str(s) => Some(s) case _ => None
  {
  }

  lemma SlotFieldIsGood(v: Value)
    ensures ResolveOptionalNonnegativeInteger(v).Success? <==> Missing(v) || GoodNatural(v, 4_294_967_295)
    ensures ResolveOptionalNonnegativeInteger(v).Success? ==>
      ResolveOptionalNonnegativeInteger(v).value == match v case Int(n) => Some(n) case _ => None
  {
  }

  lemma TimestampIsMillis(env: Env, v: Value)
    ensures ResolveBlockTimestamp(env, v).Success? <==> Millis(env, v).Success?
    ensures Millis(env, v).Success? ==> ResolveBlockTimestamp(env, v).value == Millis(env, v).value
  {
    if v.Str? && v.s != [] && Trim(v.s) == v.s && AllDigits(v.s) {
      assert IsEpochOffset(v.s);
    }
  }

  /** A block is accepted exactly if its fields are good, and reports them. */
  lemma BlockReportsItsFields(env: Env, blockInfo: Value)
    ensures ResolveBlock(env, blockInfo).Success? <==> GoodBlock(env, blockInfo)
    ensures GoodBlock(env, blockInfo) ==>
      var block := ResolveBlock(env, blockInfo).value;
      && block.timestamp == Millis(env, Field(blockInfo, Name("timestamp"))).value
      && block.globalSlot == NumberIn(blockInfo, "globalSlotSinceGenesis")
      && block.stateHash == TextIn(blockInfo, "stateHash")
      && block.parentHash == TextIn(blockInfo, "parentHash")
      && block.chainStatus == TextIn(blockInfo, "chainStatus")
  {
    TimestampIsMillis(env, Field(blockInfo, Name("timestamp")));
    SlotFieldIsGood(Field(blockInfo, Name("globalSlotSinceGenesis")));
    TextFieldIsGood(Field(blockInfo, Name("stateHash")));
    TextFieldIsGood(Field(blockInfo, Name("parentHash")));
    TextFieldIsGood(Field(blockInfo, Name("chainStatus")));
  }

  lemma NamesAreTrimmed(entry: Value)
    ensures AccountUpdateIdOf(entry) == match Field(entry, Name("accountUpdateId")) case Str(s) => Trim(s) case _ => []
    ensures TransactionHash(entry) == match At(entry, "transactionInfo", "hash") case Str(s) => Trim(s) case _ => []
    ensures AccountUpdateIds(entry) == At(entry, "transactionInfo", "zkappAccountUpdateIds")
    ensures Field(TransactionInfo(entry), Name("sequenceNumber")) == At(entry, "transactionInfo", "sequenceNumber")
    ensures ContractData(entry) == Field(entry, Name("data"))
  {
  }

  lemma ListsAreGood(ids: Value, data: Value)
    ensures ids.Arr? ==> (AllNaturals(ids.items) <==> GoodNaturals(ids.items))
    ensures data.Arr? ==> (AllStrings(data.items) <==> GoodStrings(data.items))
  {
  }

  lemma FaultlessIsGood(entry: Value)
    ensures EventDataFault(entry).None? <==> GoodEntry(entry)
    ensures GoodEntry(entry) ==>
      && AccountUpdateIdOf(entry) == Trim(TextIn(entry, "accountUpdateId").value)
      && TransactionHash(entry) == Trim(At(entry, "transactionInfo", "hash").s)
  {
    var id, hash := Field(entry, Name("accountUpdateId")), At(entry, "transactionInfo", "hash");
    var n, ids := At(entry, "transactionInfo", "sequenceNumber"), At(entry, "transactionInfo", "zkappAccountUpdateIds");
    NamesAreTrimmed(entry);
    ListsAreGood(ids, Field(entry, Name("data")));
    assert IsNonnegativeDecimal(AccountUpdateIdOf(entry)) <==> id.Str? && IsNonnegativeDecimal(Trim(id.s));
    assert TransactionHash(entry) != [] <==> hash.Str? && Trim(hash.s) != [];
    assert IsAbsent(n) || IsSafeNatural(n) <==> Missing(n) || GoodNatural(n, 9_007_199_254_740_991);
  }

  lemma IndexIsFound(entry: Value)
    requires GoodEntry(entry)
    ensures EventDataFault(entry).None?
    ensures
      var ids, r := At(entry, "transactionInfo", "zkappAccountUpdateIds").items, GetAccountUpdateIndex(entry);
      && (r.Success? <==> IdNumber(entry) <= 9_007_199_254_740_991 && Int(IdNumber(entry)) in ids)
      && (r.Success? ==>
            && 0 <= r.value < |ids| && ids[r.value] == Int(IdNumber(entry))
            && forall i | 0 <= i < r.value :: ids[i] != Int(IdNumber(entry)))
  {
    FaultlessIsGood(entry);
    FirstIndexOf(At(entry, "transactionInfo", "zkappAccountUpdateIds").items, IdNumber(entry));
  }

  lemma {:induction false} FirstIndexOf(ids: seq<Value>, id: int)
    ensures forall i | 0 <= i < IndexOf(ids, id) :: ids[i] != Int(id)
  {
    if |ids| > 0 {
      FirstIndexOf(ids[1..], id);
      assert ids == [ids[0]] + ids[1..];
    }
  }

  lemma TypeIsPicked(env: Env, entry: Value)
    requires GoodEntry(entry)
    ensures EventDataFault(entry).None?
    ensures
      var data, types, r := Field(entry, Name("data")).items, env.knownEventTypes, ResolveEventType(env, entry);
      && (r.Success? <==> |types| == 1 || (|data| > 0 && IsNonnegativeDecimal(data[0].s) && DigitsValue(data[0].s) < |types|))
      && (r.Success? ==> r.value == if |types| == 1 then types[0] else types[DigitsValue(data[0].s)])
  {
    FaultlessIsGood(entry);
  }

  /** What the row of an accepted entry says of it. */
  ghost predicate Reports(env: Env, status: Status, height: Option<int>, blockInfo: Value, entry: Value, o: Observed)
    requires GoodBlock(env, blockInfo) && GoodEntry(entry) && Resolvable(env, entry)
  {
    var c, ids, types := o.columns, At(entry, "transactionInfo", "zkappAccountUpdateIds").items, env.knownEventTypes;
    && c.status == status && c.blockHeight == height && c.pendingSeenAtHeight == (if status == Pending then height else None)
    && c.blockTimestamp == Millis(env, Field(blockInfo, Name("timestamp"))).value
    && c.globalSlot == NumberIn(blockInfo, "globalSlotSinceGenesis")
    && c.stateHash == TextIn(blockInfo, "stateHash") && c.parentHash == TextIn(blockInfo, "parentHash")
    && c.chainStatus == TextIn(blockInfo, "chainStatus")
    && c.eventType == (if |types| == 1 then types[0] else types[DigitsValue(Field(entry, Name("data")).items[0].s)])
    && c.accountUpdateId == Trim(TextIn(entry, "accountUpdateId").value)
    && c.rawEventData == Json.Canonical(entry)
    && o.identity.txHash == Trim(At(entry, "transactionInfo", "hash").s)
    && 0 <= o.identity.accountUpdateIndex < |ids| && ids[o.identity.accountUpdateIndex] == Int(IdNumber(entry))
    && forall i | 0 <= i < o.identity.accountUpdateIndex :: ids[i] != Int(IdNumber(entry))
  }

  lemma EntryResolvesExactly(env: Env, entry: Value, eventIndex: Option<nat>)
    ensures ResolveEntry(env, entry, eventIndex).Success? <==>
      GoodEntry(entry) && Resolvable(env, entry) && eventIndex.Some?
    ensures ResolveEntry(env, entry, eventIndex).Success? ==>
      var fields, ids, types := ResolveEntry(env, entry, eventIndex).value,
        At(entry, "transactionInfo", "zkappAccountUpdateIds").items, env.knownEventTypes;
      && fields.eventType == (if |types| == 1 then types[0] else types[DigitsValue(Field(entry, Name("data")).items[0].s)])
      && fields.identity.txHash == Trim(At(entry, "transactionInfo", "hash").s)
      && 0 <= fields.identity.accountUpdateIndex < |ids| && ids[fields.identity.accountUpdateIndex] == Int(IdNumber(entry))
      && (forall i | 0 <= i < fields.identity.accountUpdateIndex :: ids[i] != Int(IdNumber(entry)))
      && eventIndex == Some(fields.identity.eventIndex)
  {
    FaultlessIsGood(entry);
    if GoodEntry(entry) {
      IndexIsFound(entry);
      TypeIsPicked(env, entry);
    }
  }

  /** An entry is accepted exactly if block and entry are good, and its row reports their fields. */
  lemma AcceptedExactlyWhenGood(
    env: Env, status: Status, height: Option<int>, blockInfo: Value, entry: Value,
    eventIndex: Option<nat>, blockEventIndex: nat)
    ensures
      var r := Validate(env, status, height, blockInfo, entry, eventIndex, blockEventIndex);
      && (r.Success? <==>
            && height.Some? && GoodBlock(env, blockInfo)
            && GoodEntry(entry) && Resolvable(env, entry) && eventIndex.Some?)
      && (r.Success? ==>
            && Reports(env, status, height, blockInfo, entry, r.value)
            && eventIndex == Some(r.value.identity.eventIndex) && r.value.columns.blockEventIndex == blockEventIndex)
  {
    BlockReportsItsFields(env, blockInfo);
    EntryResolvesExactly(env, entry, eventIndex);
    FaultlessIsGood(entry);
  }

  // ---------------------------------------------------------------- why an entry is rejected

  /** The first block field at fault. */
  function BlockComplaint(env: Env, blockInfo: Value): Option<Code> {
    var slot := Field(blockInfo, Name("globalSlotSinceGenesis"));
    if Millis(env, Field(blockInfo, Name("timestamp"))).Failure? then Some(InvalidBlockTimestamp)
    else if !Missing(slot) && !GoodNatural(slot, 4_294_967_295) then Some(InvalidBlockIdentity)
    else if !GoodText(Field(blockInfo, Name("stateHash"))) then Some(InvalidBlockIdentity)
    else if !GoodText(Field(blockInfo, Name("parentHash"))) then Some(InvalidBlockIdentity)
    else if !GoodText(Field(blockInfo, Name("chainStatus"))) then Some(InvalidBlockIdentity)
    else None
  }

  /** The first part of the entry that has not the shape it needs. */
  function ShapeComplaint(entry: Value): Option<Code> {
    var id, hash := Field(entry, Name("accountUpdateId")), At(entry, "transactionInfo", "hash");
    var n, ids := At(entry, "transactionInfo", "sequenceNumber"), At(entry, "transactionInfo", "zkappAccountUpdateIds");
    var data := Field(entry, Name("data"));
    if !entry.Obj? then Some(InvalidEvent)
    else if !id.Str? || !IsNonnegativeDecimal(Trim(id.s)) then Some(InvalidAccountUpdateId)
    else if !hash.Str? || Trim(hash.s) == [] then Some(InvalidTransactionHash)
    else if !Missing(n) && !GoodNatural(n, 9_007_199_254_740_991) then Some(InvalidTransactionSequence)
    else if !ids.Arr? || !GoodNaturals(ids.items) then Some(InvalidAccountUpdateIds)
    else if !data.Arr? || !GoodStrings(data.items) then Some(InvalidEventData)
    else None
  }

  /** What cannot be resolved of an entry of good shape. */
  function ResolutionComplaint(env: Env, entry: Value, eventIndex: Option<nat>): Option<Code>
    requires GoodEntry(entry)
  {
    var ids, data, types := At(entry, "transactionInfo", "zkappAccountUpdateIds").items, Field(entry, Name("data")).items, env.knownEventTypes;
    if IdNumber(entry) > 9_007_199_254_740_991 then Some(InvalidAccountUpdateId)
    else if Int(IdNumber(entry)) !in ids then Some(UnresolvedAccountUpdate)
    else if eventIndex.None? then Some(InvalidEventIdentity)
    else if |types| == 0 then Some(UnresolvedEventType)
    else if |types| > 1 && (|data| == 0 || !IsNonnegativeDecimal(data[0].s)) then Some(InvalidEventDiscriminator)
    else if |types| > 1 && DigitsValue(data[0].s) >= |types| then Some(UnresolvedEventType)
    else None
  }

  lemma BlockComplaintIsTheReason(env: Env, blockInfo: Value)
    ensures
      match ResolveBlock(env, blockInfo)
      case Success(_) => BlockComplaint(env, blockInfo).None?
      case Failure(code) => BlockComplaint(env, blockInfo) == Some(code)
  {
    TimestampIsMillis(env, Field(blockInfo, Name("timestamp")));
    SlotFieldIsGood(Field(blockInfo, Name("globalSlotSinceGenesis")));
    TextFieldIsGood(Field(blockInfo, Name("stateHash")));
    TextFieldIsGood(Field(blockInfo, Name("parentHash")));
    TextFieldIsGood(Field(blockInfo, Name("chainStatus")));
  }

  lemma ShapeComplaintIsTheReason(entry: Value)
    ensures EventDataFault(entry) == ShapeComplaint(entry)
    ensures ShapeComplaint(entry).None? <==> GoodEntry(entry)
  {
    var id, hash := Field(entry, Name("accountUpdateId")), At(entry, "transactionInfo", "hash");
    var n, ids := At(entry, "transactionInfo", "sequenceNumber"), At(entry, "transactionInfo", "zkappAccountUpdateIds");
    NamesAreTrimmed(entry);
    ListsAreGood(ids, Field(entry, Name("data")));
    assert IsNonnegativeDecimal(AccountUpdateIdOf(entry)) <==> id.Str? && IsNonnegativeDecimal(Trim(id.s));
    assert TransactionHash(entry) != [] <==> hash.Str? && Trim(hash.s) != [];
    assert IsAbsent(n) || IsSafeNatural(n) <==> Missing(n) || GoodNatural(n, 9_007_199_254_740_991);
  }

  lemma ResolutionComplaintIsTheReason(env: Env, entry: Value, eventIndex: Option<nat>)
    requires GoodEntry(entry)
    ensures
      match ResolveEntry(env, entry, eventIndex)
      case Success(_) => ResolutionComplaint(env, entry, eventIndex).None?
      case Failure(code) => ResolutionComplaint(env, entry, eventIndex) == Some(code)
  {
    FaultlessIsGood(entry);
    IndexIsFound(entry);
    TypeIsPicked(env, entry);
  }

  /** A rejected entry is rejected for the first thing at fault: height, block fields, shape, then resolution. */
  lemma FirstFaultIsTheReason(
    env: Env, status: Status, height: Option<int>, blockInfo: Value, entry: Value,
    eventIndex: Option<nat>, blockEventIndex: nat, code: Code)
    requires Validate(env, status, height, blockInfo, entry, eventIndex, blockEventIndex) == Failure(code)
    ensures
      Some(code) ==
      if height.None? then Some(InvalidBlockHeight)
      else if BlockComplaint(env, blockInfo).Some? then BlockComplaint(env, blockInfo)
      else if !GoodEntry(entry) then ShapeComplaint(entry)
      else ResolutionComplaint(env, entry, eventIndex)
  {
    BlockComplaintIsTheReason(env, blockInfo);
    ShapeComplaintIsTheReason(entry);
    if GoodEntry(entry) { ResolutionComplaintIsTheReason(env, entry, eventIndex); }
  }

  // ---------------------------------------------------------------- which entries a response lists

  /** The height a block reports, if it is a safe natural. */
  function ReportedHeight(blockInfo: Value): Option<int> {
    match Field(blockInfo, Name("height"))
    case Int(n) => if 0 <= n <= 9_007_199_254_740_991 then Some(n) else None
    case _ => None
  }

  /** Observation o is entry b of output a. */
  predicate IsEntry(outputs: seq<Value>, a: nat, b: nat, o: Observation) {
    && a < |outputs| && Field(outputs[a], Name("eventData")).Arr? && b < |Field(outputs[a], Name("eventData")).items|
    && o == Entry(
         Field(outputs[a], Name("blockInfo")), ReportedHeight(Field(outputs[a], Name("blockInfo"))),
         Field(outputs[a], Name("eventData")).items[b])
  }

  lemma ObservesEntries(output: Value)
    ensures
      var list, blockInfo := Field(output, Name("eventData")), Field(output, Name("blockInfo"));
      if list.Arr? then
        && |Observe(output)| == |list.items|
        && forall b | 0 <= b < |list.items| :: Observe(output)[b] == Entry(blockInfo, ReportedHeight(blockInfo), list.items[b])
      else Observe(output) == [Unlisted(
        ReportedHeight(blockInfo),
        if Missing(list) && ReportedHeight(blockInfo).None? then InvalidBlockHeight else InvalidEventList)]
  {
  }

  /** How many observations the first outputs give: their entries, and one for each without a list. */
  function ObservedUpTo(outputs: seq<Value>, a: nat): nat
    requires a <= |outputs|
  {
    if a == 0 then 0
    else
      var list := Field(outputs[a - 1], Name("eventData"));
      ObservedUpTo(outputs, a - 1) + if list.Arr? then |list.items| else 1
  }

  lemma {:induction false} FlattenSize(outputs: seq<Value>, a: nat)
    requires a <= |outputs|
    ensures |Flatten(outputs[..a])| == ObservedUpTo(outputs, a)
  {
    if a > 0 {
      FlattenSize(outputs, a - 1);
      assert outputs[..a][..a - 1] == outputs[..a - 1];
      ObservesEntries(outputs[a - 1]);
    }
  }

  /** Nothing is skipped: every entry of every list is observed, in the order of the response. */
  lemma {:induction false} EveryEntryIsObserved(outputs: seq<Value>, a: nat, b: nat)
    requires a < |outputs| && Field(outputs[a], Name("eventData")).Arr? && b < |Field(outputs[a], Name("eventData")).items|
    ensures
      var obs, p := Flatten(outputs), ObservedUpTo(outputs, a) + b;
      p < |obs| && IsEntry(outputs, a, b, obs[p])
    decreases |outputs|
  {
    var n := |outputs| - 1;
    var front, last := Flatten(outputs[..n]), Observe(outputs[n]);
    assert Flatten(outputs) == front + last;
    if a == n {
      FlattenSize(outputs, n);
      ObservesEntries(outputs[n]);
      assert (front + last)[|front| + b] == last[b];
    } else {
      EveryEntryIsObserved(outputs[..n], a, b);
      SameUpTo(outputs, a);
      var p := ObservedUpTo(outputs, a) + b;
      assert outputs[..n][a] == outputs[a] && (front + last)[p] == front[p];
      assert IsEntry(outputs[..n], a, b, front[p]);
    }
  }

  lemma {:induction false} SameUpTo(outputs: seq<Value>, a: nat)
    requires a < |outputs|
    ensures ObservedUpTo(outputs[..|outputs| - 1], a) == ObservedUpTo(outputs, a)
  {
    if a > 0 {
      SameUpTo(outputs, a - 1);
    }
  }

  /** Nothing is made up: what is observed as an entry stands in the list of some output. */
  lemma {:induction false} ObservedEntryIsListed(outputs: seq<Value>, p: nat)
    requires p < |Flatten(outputs)| && Flatten(outputs)[p].Entry?
    ensures exists a, b :: IsEntry(outputs, a, b, Flatten(outputs)[p])
  {
    var n := |outputs| - 1;
    var front := Flatten(outputs[..n]);
    assert Flatten(outputs) == front + Observe(outputs[n]);
    if p < |front| {
      ObservedEntryIsListed(outputs[..n], p);
      var a, b :| IsEntry(outputs[..n], a, b, front[p]);
      assert IsEntry(outputs, a, b, front[p]);
    } else {
      ObservesEntries(outputs[n]);
      assert IsEntry(outputs, n, p - |front|, Flatten(outputs)[p]);
    }
  }

  // ---------------------------------------------------------------- what a batch holds

  /** The row reports entry o, apart from its final block event index. */
  ghost predicate RowReports(env: Env, status: Status, o: Observation, row: Incoming) {
    && o.Entry? && o.height.Some? && GoodBlock(env, o.blockInfo) && GoodEntry(o.entry) && Resolvable(env, o.entry)
    && Reports(env, status, o.height, o.blockInfo, o.entry, Observed(row.identity, row.columns))
  }

  lemma VerdictReports(env: Env, status: Status, obs: seq<Observation>, i: nat, row: Incoming)
    requires i < |obs| && Judge(RulesFor(env, status), obs, i) == Accept(Content(row))
    ensures RowReports(env, status, obs[i], row)
    ensures row.columns.blockEventIndex == CountHeight(obs[..i], obs[i].height)
  {
    var o, rules := obs[i], RulesFor(env, status);
    var at := BlockIndexAt(obs, i);
    assert o.Entry?;
    AcceptedExactlyWhenGood(
      env, status, o.height, o.blockInfo, o.entry, EventIndexAt(rules, obs, i), if at.Some? then at.value else 0);
  }

  lemma {:induction false} KeptRow(status: Status, rows: seq<Incoming>, mixed: set<nat>, row: Incoming) returns (j: nat)
    requires row in SetAside(status, rows, mixed).accepted
    ensures j < |rows| && j !in mixed && rows[j] == row
  {
    var n := |rows| - 1;
    if n !in mixed && rows[n] == row {
      j := n;
    } else {
      j := KeptRow(status, rows[..n], mixed, row);
    }
  }

  /** Where an accepted row of a batch stood before the blocks were numbered. */
  ghost predicate StoodAt(collected: seq<Incoming>, row: Incoming, j: nat) {
    j < |collected| && j !in MixedRows(collected) && Assigned(collected)[j] == row
  }

  lemma AcceptedStoodSomewhere(env: Env, status: Status, outputs: seq<Value>, row: Incoming) returns (j: nat)
    requires row in BuildBatch(env, status, outputs).accepted
    ensures StoodAt(Collect(status, Verdicts(RulesFor(env, status), Flatten(outputs))).accepted, row, j)
  {
    var rows := Collect(status, Verdicts(RulesFor(env, status), Flatten(outputs))).accepted;
    j := KeptRow(status, Assigned(rows), MixedRows(rows), row);
  }

  /** Every accepted row reports the entry at its position of the response. */
  lemma BatchReportsTheResponse(env: Env, status: Status, outputs: seq<Value>, row: Incoming)
    requires row in BuildBatch(env, status, outputs).accepted
    ensures row.source < |Flatten(outputs)| && RowReports(env, status, Flatten(outputs)[row.source], row)
  {
    var obs, vs := Flatten(outputs), Verdicts(RulesFor(env, status), Flatten(outputs));
    var rows := Collect(status, vs).accepted;
    var j := AcceptedStoodSomewhere(env, status, outputs, row);
    CollectComesFrom(status, vs, j);
    VerdictReports(env, status, obs, rows[j].source, rows[j]);
    NumberingKeepsReport(env, status, obs[row.source], rows, j);
  }

  lemma NumberingKeepsReport(env: Env, status: Status, o: Observation, rows: seq<Incoming>, j: nat)
    requires j < |rows| && RowReports(env, status, o, rows[j])
    ensures RowReports(env, status, o, Assigned(rows)[j])
  {
  }

  lemma NumberingKeepsPlace(rows: seq<Incoming>, i: nat, j: nat)
    requires i < |rows| && j < |rows|
    ensures Assigned(rows)[i].source == rows[i].source && Assigned(rows)[i].columns.blockHeight == rows[i].columns.blockHeight
    ensures CarriesSequence(Assigned(rows)[i]) == CarriesSequence(rows[i])
    ensures CarriesSequence(rows[i]) && CarriesSequence(rows[j]) ==>
      forall first: bool :: BelongsBefore(Assigned(rows)[i], Assigned(rows)[j], first) == BelongsBefore(rows[i], rows[j], first)
  {
  }

  lemma UnmixedBlock(rows: seq<Incoming>, i: nat, j: nat)
    requires i < |rows| && j < |rows| && i !in MixedRows(rows) && rows[i].columns.blockHeight == rows[j].columns.blockHeight
    ensures CarriesSequence(rows[i]) <==> CarriesSequence(rows[j])
    ensures CarriesSequence(rows[i]) <==> AllCarrySequence(rows, rows[i].columns.blockHeight)
  {
    if !AllCarrySequence(rows, rows[i].columns.blockHeight) { OtherBlocksStay(rows, i); }
  }

  lemma SourcesAscend(status: Status, vs: seq<Verdict>, i: nat, j: nat)
    requires i < |Collect(status, vs).accepted| && j < |Collect(status, vs).accepted|
    ensures i < j <==> Collect(status, vs).accepted[i].source < Collect(status, vs).accepted[j].source
  {
    CollectComesFrom(status, vs, i);
    CollectComesFrom(status, vs, j);
  }

  /**
   Two accepted rows of one block of a batch carry a sequence number both or neither. If
   they do, their block event indexes stand in the order of sequence number, account
   update index, event index, hash and place in the response.
   */
  lemma BatchOrdersItsBlocks(env: Env, status: Status, outputs: seq<Value>, a: Incoming, b: Incoming)
    requires a in BuildBatch(env, status, outputs).accepted && b in BuildBatch(env, status, outputs).accepted
    requires a.columns.blockHeight == b.columns.blockHeight
    ensures CarriesSequence(a) <==> CarriesSequence(b)
    ensures CarriesSequence(a) && CarriesSequence(b) ==>
      (a.columns.blockEventIndex < b.columns.blockEventIndex <==> BelongsBefore(a, b, a.source < b.source))
  {
    var vs := Verdicts(RulesFor(env, status), Flatten(outputs));
    var rows := Collect(status, vs).accepted;
    var i := AcceptedStoodSomewhere(env, status, outputs, a);
    var j := AcceptedStoodSomewhere(env, status, outputs, b);
    NumberingKeepsPlace(rows, i, j);
    NumberingKeepsPlace(rows, j, i);
    UnmixedBlock(rows, i, j);
    SourcesAscend(status, vs, i, j);
    if CarriesSequence(rows[i]) { BlockIsNumberedInOrder(rows, i, j); }
  }

  /** The entries of a block among the first observations. */
  function EntriesOfBlock(obs: seq<Observation>, n: nat, height: Option<int>): set<nat>
    requires n <= |obs|
  {
    set k: nat | k < n && obs[k].Entry? && obs[k].height == height
  }

  lemma {:induction false} CountedEntries(obs: seq<Observation>, n: nat, height: Option<int>)
    requires n <= |obs|
    ensures CountHeight(obs[..n], height) == |EntriesOfBlock(obs, n, height)|
  {
    if n > 0 {
      CountedEntries(obs, n - 1, height);
      assert obs[..n][..n - 1] == obs[..n - 1];
      var front := EntriesOfBlock(obs, n - 1, height);
      assert EntriesOfBlock(obs, n, height) ==
        if obs[n - 1].Entry? && obs[n - 1].height == height then front + {n - 1} else front;
    }
  }

  /** Without sequence numbers a row keeps its place among all entries of its block, valid or not. */
  lemma UnsequencedRowsKeepTheirPlace(env: Env, status: Status, outputs: seq<Value>, row: Incoming)
    requires row in BuildBatch(env, status, outputs).accepted && !CarriesSequence(row)
    ensures row.source <= |Flatten(outputs)|
    ensures row.columns.blockEventIndex == |EntriesOfBlock(Flatten(outputs), row.source, row.columns.blockHeight)|
  {
    var obs, vs := Flatten(outputs), Verdicts(RulesFor(env, status), Flatten(outputs));
    var rows := Collect(status, vs).accepted;
    var j := AcceptedStoodSomewhere(env, status, outputs, row);
    NumberingKeepsPlace(rows, j, j);
    UnmixedBlock(rows, j, j);
    OtherBlocksStay(rows, j);
    CollectComesFrom(status, vs, j);
    VerdictReports(env, status, obs, row.source, row);
    CountedEntries(obs, row.source, row.columns.blockHeight);
  }

  lemma {:induction false} CollectHolds(status: Status, vs: seq<Verdict>, p: nat) returns (i: nat)
    requires p < |vs| && vs[p].Accept?
    ensures i < |Collect(status, vs).accepted| && Collect(status, vs).accepted[i].source == p
  {
    var n := |vs| - 1;
    if p == n {
      i := |Collect(status, vs[..n]).accepted|;
    } else {
      i := CollectHolds(status, vs[..n], p);
    }
  }

  lemma {:induction false} SetAsideHolds(status: Status, rows: seq<Incoming>, mixed: set<nat>, i: nat)
    requires i < |rows|
    ensures
      if i in mixed then MixedRejection(status, rows[i]) in SetAside(status, rows, mixed).rejected
      else rows[i] in SetAside(status, rows, mixed).accepted
  {
    if i < |rows| - 1 {
      SetAsideHolds(status, rows[..|rows| - 1], mixed, i);
    }
  }

  lemma GoodEntryPassesItsChecks(env: Env, status: Status, obs: seq<Observation>, p: nat)
    requires p < |obs| && obs[p].Entry? && obs[p].height.Some?
    requires GoodBlock(env, obs[p].blockInfo) && GoodEntry(obs[p].entry) && Resolvable(env, obs[p].entry)
    ensures Judge(RulesFor(env, status), obs, p).Accept?
  {
    var rules, o, at := RulesFor(env, status), obs[p], BlockIndexAt(obs, p);
    FaultlessIsGood(o.entry);
    AcceptedExactlyWhenGood(
      env, status, o.height, o.blockInfo, o.entry, EventIndexAt(rules, obs, p), if at.Some? then at.value else 0);
  }

  /** A good entry is accepted, unless only some entries of its block carry sequence numbers. */
  lemma GoodEntryIsAccepted(env: Env, status: Status, outputs: seq<Value>, p: nat)
    requires p < |Flatten(outputs)| && Flatten(outputs)[p].Entry? && Flatten(outputs)[p].height.Some?
    requires
      var o := Flatten(outputs)[p];
      GoodBlock(env, o.blockInfo) && GoodEntry(o.entry) && Resolvable(env, o.entry)
    ensures
      || (exists row :: row in BuildBatch(env, status, outputs).accepted && row.source == p)
      || (exists r :: r in BuildBatch(env, status, outputs).rejected && r.source == p && r.code == IncompleteTransactionSequence)
  {
    var vs := Verdicts(RulesFor(env, status), Flatten(outputs));
    GoodEntryPassesItsChecks(env, status, Flatten(outputs), p);
    var i := CollectHolds(status, vs, p);
    var rows := Collect(status, vs).accepted;
    SetAsideHolds(status, Assigned(rows), MixedRows(rows), i);
    NumberingKeepsPlace(rows, i, i);
  }

  // ---------------------------------------------------------------- what a rejection says

  /** A rejection tells status, height and provisional place of its observation. */
  ghost predicate Tells(obs: seq<Observation>, status: Status, r: Rejection) {
    && r.source < |obs| && r.archiveStatus == status && r.blockHeight == obs[r.source].height
    && (r.blockEventIndex.Some? <==> obs[r.source].Entry? && obs[r.source].height.Some?)
    && (r.blockEventIndex.Some? ==> r.blockEventIndex.value == |EntriesOfBlock(obs, r.source, r.blockHeight)|)
  }

  lemma VerdictTells(env: Env, status: Status, obs: seq<Observation>, n: nat)
    requires n < |obs|
    ensures
      match Judge(RulesFor(env, status), obs, n)
      case Accept(_) => true
      case Reject(height, at, code) => Tells(obs, status, Rejection(n, status, height, at, code))
  {
    CountedEntries(obs, n, obs[n].height);
  }

  lemma {:induction false} CollectTells(env: Env, status: Status, obs: seq<Observation>, vs: seq<Verdict>, r: Rejection)
    requires |vs| <= |obs| && forall k | 0 <= k < |vs| :: vs[k] == Judge(RulesFor(env, status), obs, k)
    requires r in Collect(status, vs).rejected
    ensures Tells(obs, status, r)
  {
    var n := |vs| - 1;
    VerdictTells(env, status, obs, n);
    if r in Collect(status, vs[..n]).rejected { CollectTells(env, status, obs, vs[..n], r); }
  }

  lemma {:induction false} AsideRow(status: Status, rows: seq<Incoming>, mixed: set<nat>, r: Rejection) returns (j: nat)
    requires r in SetAside(status, rows, mixed).rejected
    ensures j < |rows| && j in mixed && r == MixedRejection(status, rows[j])
  {
    var n := |rows| - 1;
    if n in mixed && r == MixedRejection(status, rows[n]) {
      j := n;
    } else {
      j := AsideRow(status, rows[..n], mixed, r);
    }
  }

  lemma MixedRowTells(env: Env, status: Status, obs: seq<Observation>, rows: seq<Incoming>, j: nat)
    requires j < |rows| && j in MixedRows(rows) && rows[j].source < |obs|
    requires Judge(RulesFor(env, status), obs, rows[j].source) == Accept(Content(rows[j]))
    ensures Tells(obs, status, MixedRejection(status, Assigned(rows)[j]))
    ensures MixedRejection(status, Assigned(rows)[j]).code == IncompleteTransactionSequence
  {
    var n := rows[j].source;
    VerdictReports(env, status, obs, n, rows[j]);
    CountedEntries(obs, n, obs[n].height);
    MixedBlockStays(rows, j);
  }

  lemma MixedBlockStays(rows: seq<Incoming>, j: nat)
    requires j < |rows| && j in MixedRows(rows)
    ensures Assigned(rows)[j] == rows[j]
  {
  }

  /** Every rejection of a batch tells status, height and provisional block event index of its observation. */
  lemma RejectionsTell(env: Env, status: Status, outputs: seq<Value>, r: Rejection)
    requires r in BuildBatch(env, status, outputs).rejected
    ensures Tells(Flatten(outputs), status, r)
  {
    var obs := Flatten(outputs);
    var vs := Verdicts(RulesFor(env, status), obs);
    var rows := Collect(status, vs).accepted;
    if r in Collect(status, vs).rejected {
      CollectTells(env, status, obs, vs, r);
    } else {
      var j := AsideRow(status, Assigned(rows), MixedRows(rows), r);
      CollectComesFrom(status, vs, j);
      MixedRowTells(env, status, obs, rows, j);
    }
  }
}
