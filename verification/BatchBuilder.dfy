/** The loops of buildBatch, proved against Batches.BuildBatch. */
module BatchBuilder {
  import opened Wrappers
  import opened Texts
  import opened Json
  import opened Rows
  import opened Validation
  import opened BlockOrder
  import opened Batches

  function Counted<K(==)>(counts: map<K, nat>, key: K): nat {
    if key in counts then counts[key] else 0
  }

  /** The lists and counters buildBatch fills while it walks a response. */
  class Builder {
    const rules: Rules
    const status: Status
    var accepted: seq<Incoming>
    var rejected: seq<Rejection>
    var eventIndexByAccountUpdate: map<Text, nat>
    var blockEventIndexes: map<int, nat>
    var observations: nat
    ghost var seen: seq<Observation>

    ghost predicate Valid()
      reads this
    {
      && Batch(accepted, rejected) == Collect(status, Verdicts(rules, seen))
      && (forall key :: Counted(eventIndexByAccountUpdate, key) == CountKey(rules, seen, key))
      && (forall height :: Counted(blockEventIndexes, height) == CountHeight(seen, Some(height)))
      && observations == |seen|
    }

    constructor (rules: Rules, status: Status)
      ensures Valid() && seen == [] && this.rules == rules && this.status == status
    {
      this.rules, this.status := rules, status;
      accepted, rejected := [], [];
      eventIndexByAccountUpdate, blockEventIndexes := map[], map[];
      observations := 0;
      seen := [];
    }

    /** An output without an event list: one rejection. */
    method AddUnlisted(height: Option<int>, code: Code)
      requires Valid()
      modifies this
      ensures Valid() && seen == old(seen) + [Unlisted(height, code)]
    {
      Record(Reject(height, None, code));
      Extend(Unlisted(height, code));
    }

    /** reserveEventIndex: a sibling index is taken whether or not the entry turns out valid. */
    method ReserveEventIndex(entry: Value) returns (eventIndex: Option<nat>)
      modifies this`eventIndexByAccountUpdate
      ensures
        match rules.siblingKey(entry)
        case None => eventIndex.None? && eventIndexByAccountUpdate == old(eventIndexByAccountUpdate)
        case Some(key) =>
          && eventIndex == Some(Counted(old(eventIndexByAccountUpdate), key))
          && eventIndexByAccountUpdate == old(eventIndexByAccountUpdate)[key := eventIndex.value + 1]
    {
      match rules.siblingKey(entry)
      case None =>
        eventIndex := None;
      case Some(key) =>
        var index := Counted(eventIndexByAccountUpdate, key);
        eventIndexByAccountUpdate := eventIndexByAccountUpdate[key := index + 1];
        eventIndex := Some(index);
    }

    /** The next position in the block, when the block has a height. */
    method ReserveBlockEventIndex(height: Option<int>) returns (blockEventIndex: Option<nat>)
      modifies this`blockEventIndexes
      ensures
        match height
        case None => blockEventIndex.None? && blockEventIndexes == old(blockEventIndexes)
        case Some(h) =>
          && blockEventIndex == Some(Counted(old(blockEventIndexes), h))
          && blockEventIndexes == old(blockEventIndexes)[h := blockEventIndex.value + 1]
    {
      if height.None? {
        return None;
      }
      blockEventIndex := Some(Counted(blockEventIndexes, height.value));
      blockEventIndexes := blockEventIndexes[height.value := blockEventIndex.value + 1];
    }

    /** Pushes a verdict onto the list it belongs to. */
    method Record(v: Verdict)
      modifies this`accepted, this`rejected
      ensures Batch(accepted, rejected) == Append(status, old(Batch(accepted, rejected)), observations, v)
    {
      match v
      case Accept(o) => accepted := accepted + [Incoming(observations, o.identity, o.columns)];
      case Reject(height, at, code) => rejected := rejected + [Rejection(observations, status, height, at, code)];
    }

    /** One event entry: reserve its indexes, then accept or reject it. */
    method AddEntry(blockInfo: Value, height: Option<int>, entry: Value)
      requires Valid()
      modifies this
      ensures Valid() && seen == old(seen) + [Entry(blockInfo, height, entry)]
    {
      var eventIndex := ReserveEventIndex(entry);
      var blockEventIndex := ReserveBlockEventIndex(height);
      Record(rules.judge(height, blockInfo, entry, eventIndex, blockEventIndex));
      JudgeNextEntry(rules, seen, blockInfo, height, entry);
      Extend(Entry(blockInfo, height, entry));
    }

    /** Closes a step: the observation just handled joins the ones seen. */
    method Extend(ghost o: Observation)
      requires observations == |seen|
      requires Batch(accepted, rejected) ==
        Append(status, Collect(status, Verdicts(rules, seen)), |seen|, JudgeNext(rules, seen, o))
      requires forall key :: Counted(eventIndexByAccountUpdate, key) == CountKey(rules, seen, key) + KeyStep(rules, o, key)
      requires forall h :: Counted(blockEventIndexes, h) == CountHeight(seen, Some(h)) + HeightStep(o, Some(h))
      modifies this`seen, this`observations
      ensures Valid() && seen == old(seen) + [o]
    {
      CollectNext(rules, status, seen, o);
      CountsNext(rules, seen, o);
      observations := observations + 1;
      seen := seen + [o];
    }
  }

  /** The verdict on an observation that arrives after the ones seen. */
  function JudgeNext(rules: Rules, seen: seq<Observation>, o: Observation): Verdict {
    Judge(rules, seen + [o], |seen|)
  }

  lemma JudgeNextEntry(rules: Rules, seen: seq<Observation>, blockInfo: Value, height: Option<int>, entry: Value)
    ensures JudgeNext(rules, seen, Entry(blockInfo, height, entry)) ==
      rules.judge(
        height, blockInfo, entry,
        match rules.siblingKey(entry) case None => None case Some(key) => Some(CountKey(rules, seen, key)),
        if height.Some? then Some(CountHeight(seen, height)) else None)
  {
    assert (seen + [Entry(blockInfo, height, entry)])[..|seen|] == seen;
  }

  function Append(status: Status, batch: Batch, n: nat, v: Verdict): Batch {
    match v
    case Accept(o) => Batch(batch.accepted + [Incoming(n, o.identity, o.columns)], batch.rejected)
    case Reject(height, at, code) => Batch(batch.accepted, batch.rejected + [Rejection(n, status, height, at, code)])
  }

  /** A verdict depends on nothing that comes later in the response. */
  lemma VerdictsOfPrefix(rules: Rules, seen: seq<Observation>, o: Observation)
    ensures Verdicts(rules, seen + [o])[..|seen|] == Verdicts(rules, seen)
  {
    var whole := seen + [o];
    forall i | 0 <= i < |seen| ensures Judge(rules, whole, i) == Judge(rules, seen, i) {
      assert whole[..i] == seen[..i];
    }
  }

  lemma CollectNext(rules: Rules, status: Status, seen: seq<Observation>, o: Observation)
    ensures Collect(status, Verdicts(rules, seen + [o])) ==
      Append(status, Collect(status, Verdicts(rules, seen)), |seen|, JudgeNext(rules, seen, o))
  {
    VerdictsOfPrefix(rules, seen, o);
  }

  lemma CountsNext(rules: Rules, seen: seq<Observation>, o: Observation)
    ensures forall key :: CountKey(rules, seen + [o], key) == CountKey(rules, seen, key) + KeyStep(rules, o, key)
    ensures forall height :: CountHeight(seen + [o], height) == CountHeight(seen, height) + HeightStep(o, height)
  {
    assert (seen + [o])[..|seen|] == seen;
  }

  /** The rows kept once mixed blocks are set aside. */
  method SetMixedBlocksAside(status: Status, rows: seq<Incoming>, inconsistent: set<nat>) returns (batch: Batch)
    ensures batch == SetAside(status, rows, inconsistent)
  {
    var accepted, rejected := [], [];
    for i := 0 to |rows|
      invariant Batch(accepted, rejected) == SetAside(status, rows[..i], inconsistent)
    {
      assert rows[..i + 1][..i] == rows[..i];
      if i in inconsistent {
        rejected := rejected + [MixedRejection(status, rows[i])];
      } else {
        accepted := accepted + [rows[i]];
      }
    }
    assert rows[..|rows|] == rows;
    batch := Batch(accepted, rejected);
  }

  /** Walks one output of the response. */
  method AddOutput(b: Builder, output: Value)
    requires b.Valid()
    modifies b
    ensures b.Valid() && b.seen == old(b.seen) + Observe(output)
  {
    var blockInfo := Field(output, Name("blockInfo"));
    var list := Field(output, Name("eventData"));
    var height := HeightOf(blockInfo);
    if IsAbsent(list) {
      b.AddUnlisted(height, if height.None? then InvalidBlockHeight else InvalidEventList);
    } else if !list.Arr? {
      b.AddUnlisted(height, InvalidEventList);
    } else {
      AddEntries(b, blockInfo, list.items);
    }
  }

  method AddEntries(b: Builder, blockInfo: Value, items: seq<Value>)
    requires b.Valid()
    modifies b
    ensures b.Valid() && b.seen == old(b.seen) + EntriesOf(blockInfo, items)
  {
    ghost var entries := EntriesOf(blockInfo, items);
    for sourceEventIndex := 0 to |items|
      invariant b.Valid() && b.seen == old(b.seen) + entries[..sourceEventIndex]
    {
      b.AddEntry(blockInfo, HeightOf(blockInfo), items[sourceEventIndex]);
      assert entries[..sourceEventIndex + 1] == entries[..sourceEventIndex] + [entries[sourceEventIndex]];
    }
    assert entries[..|items|] == entries;
  }

  /** buildBatch. */
  method Build(env: Env, status: Status, outputs: seq<Value>) returns (batch: Batch)
    ensures batch == BuildBatch(env, status, outputs)
  {
    ghost var rules := RulesFor(env, status);
    var b := new Builder(RulesFor(env, status), status);
    for outputIndex := 0 to |outputs|
      invariant fresh(b) && b.Valid() && b.seen == Flatten(outputs[..outputIndex])
    {
      AddOutput(b, outputs[outputIndex]);
      assert outputs[..outputIndex + 1][..outputIndex] == outputs[..outputIndex];
    }
    assert outputs[..|outputs|] == outputs;
    var accepted := b.accepted;
    var rows := new Incoming[|accepted|](i requires 0 <= i < |accepted| => accepted[i]);
    assert rows[..] == accepted;
    var inconsistent := AssignBlockEventIndexes(rows);
    var ordered := SetMixedBlocksAside(status, rows[..], inconsistent);
    batch := Batch(ordered.accepted, b.rejected + ordered.rejected);
  }
}
