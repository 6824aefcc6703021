/** The event router: which handlers an event is offered to, in which order, and what comes of it. */
module Router {
  import opened Wrappers
  import opened Texts
  import opened Rows
  import opened Progress

  const UNKNOWN := "unknown"

  /** Some answers of the handlers: by registration number, for one event. */
  type Answers = nat -> Outcome

  datatype Dispatched = Handled(handler: nat) | Unhandled | Threw(handler: nat)

  /** Event types that never reach a handler of their own. */
  predicate Untyped(eventType: Text) {
    eventType == [] || eventType == Name(UNKNOWN)
  }

  /** The handlers that are offered the event, in order: its own first, then all others. */
  function Offers(types: seq<Text>, eventType: Text): seq<nat> {
    var own := Place(types, eventType);
    (if own.Some? && !Untyped(eventType) then [own.value] else []) + OthersFrom(types, eventType, 0)
  }

  /** Where the type is registered. */
  function Place(types: seq<Text>, eventType: Text): (r: Option<nat>)
    ensures r.Some? ==> r.value < |types| && types[r.value] == eventType
    ensures r.None? ==> eventType !in types
  {
    if |types| == 0 then None
    else
      assert types == types[..|types| - 1] + [types[|types| - 1]];
      if types[|types| - 1] == eventType then Some(|types| - 1) else Place(types[..|types| - 1], eventType)
  }

  function OthersFrom(types: seq<Text>, eventType: Text, n: nat): (r: seq<nat>)
    requires n <= |types|
    ensures forall h :: h in r <==> n <= h < |types| && types[h] != eventType
    decreases |types| - n
  {
    if n == |types| then []
    else (if types[n] == eventType then [] else [n]) + OthersFrom(types, eventType, n + 1)
  }

  /** The first handler that does not refuse decides. */
  function Decide(offers: seq<nat>, answers: Answers): Dispatched {
    if |offers| == 0 then Unhandled
    else
      match answers(offers[0])
      case Accepts => Handled(offers[0])
      case Throws => Threw(offers[0])
      case Refuses => Decide(offers[1..], answers)
  }

  predicate Distinct(types: seq<Text>) {
    forall i, j | 0 <= i < j < |types| :: types[i] != types[j]
  }

  class EventProcessorRouter {
    const types: seq<Text>
    const handlersByType: map<Text, nat>

    ghost predicate Valid() {
      && (forall h | 0 <= h < |types| :: types[h] in handlersByType && handlersByType[types[h]] == h)
      && (forall eventType | eventType in handlersByType :: eventType in types)
    }

    constructor (types: seq<Text>, handlersByType: map<Text, nat>)
      ensures this.types == types && this.handlersByType == handlersByType
    {
      this.types, this.handlersByType := types, handlersByType;
    }

    /** The constructor of the source: it throws exactly on a duplicate event type. */
    static method Create(types: seq<Text>) returns (r: Result<EventProcessorRouter, Text>)
      ensures r.Success? <==> Distinct(types)
      ensures r.Success? ==> r.value.Valid() && r.value.types == types
    {
      var handlersByType: map<Text, nat> := map[];
      for h := 0 to |types|
        invariant forall i | 0 <= i < h :: types[i] in handlersByType && handlersByType[types[i]] == i
        invariant forall eventType :: eventType in handlersByType <==> eventType in types[..h]
        invariant forall i, j | 0 <= i < j < h :: types[i] != types[j]
      {
        if types[h] in handlersByType {
          return Failure(types[h]);
        }
        handlersByType := handlersByType[types[h] := h];
        assert types[..h + 1] == types[..h] + [types[h]];
      }
      assert types[..|types|] == types;
      var router := new EventProcessorRouter(types, handlersByType);
      r := Success(router);
    }

    /** dispatch, for an event of the given type. */
    method Dispatch(eventType: Text, answers: Answers) returns (r: Dispatched)
      requires Valid()
      ensures r == Decide(Offers(types, eventType), answers)
      ensures Distinct(types) ==> forall h: nat | h < |types| ::
        r == Handled(h) <==>
        IsOffered(types, eventType, h) && answers(h) == Accepts && AllBeforeRefuse(types, eventType, answers, h)
    {
      forall h: nat | h < |types| && Distinct(types)
        ensures Decide(Offers(types, eventType), answers) == Handled(h) <==>
          IsOffered(types, eventType, h) && answers(h) == Accepts && AllBeforeRefuse(types, eventType, answers, h)
      {
        DispatchEndsAt(types, eventType, answers, h);
      }
      var own: seq<nat> := [];
      if !Untyped(eventType) && eventType in handlersByType {
        var typedHandler := handlersByType[eventType];
        own := [typedHandler];
        if answers(typedHandler) == Accepts {
          return Handled(typedHandler);
        }
        if answers(typedHandler) == Throws {
          return Threw(typedHandler);
        }
      }
      assert Offers(types, eventType) == own + OthersFrom(types, eventType, 0);
      RefusedIsSkipped(own, OthersFrom(types, eventType, 0), answers);
      r := OfferOthers(types, eventType, answers);
    }
  }

  /** The loop of dispatch over all other handlers. */
  method OfferOthers(types: seq<Text>, eventType: Text, answers: Answers) returns (r: Dispatched)
    ensures r == Decide(OthersFrom(types, eventType, 0), answers)
  {
    for h := 0 to |types|
      invariant Decide(OthersFrom(types, eventType, 0), answers) == Decide(OthersFrom(types, eventType, h), answers)
    {
      if types[h] == eventType {
        assert OthersFrom(types, eventType, h) == OthersFrom(types, eventType, h + 1);
        continue;
      }
      assert OthersFrom(types, eventType, h)[1..] == OthersFrom(types, eventType, h + 1);
      if answers(h) == Accepts {
        return Handled(h);
      }
      if answers(h) == Throws {
        return Threw(h);
      }
    }
    r := Unhandled;
  }

  lemma RefusedIsSkipped(own: seq<nat>, rest: seq<nat>, answers: Answers)
    requires |own| <= 1 && (|own| == 1 ==> answers(own[0]) == Refuses)
    ensures Decide(own + rest, answers) == Decide(rest, answers)
  {
    if |own| == 1 {
      assert (own + rest)[1..] == rest;
    } else {
      assert own + rest == rest;
    }
  }

  /** Every handler is offered the event, but one registered for an untyped event type. */
  lemma OffersAreExact(types: seq<Text>, eventType: Text, h: nat)
    requires Distinct(types)
    ensures h in Offers(types, eventType) <==> IsOffered(types, eventType, h)
  {
  }

  /** An event is handled exactly when an offered handler accepts it before any offered handler throws. */
  lemma {:induction false} DecideIsFirst(offers: seq<nat>, answers: Answers)
    ensures Decide(offers, answers).Handled? <==>
      exists i :: 0 <= i < |offers| && answers(offers[i]) == Accepts && RefusedBefore(offers, answers, i)
    ensures Decide(offers, answers).Threw? <==>
      exists i :: 0 <= i < |offers| && answers(offers[i]) == Throws && RefusedBefore(offers, answers, i)
  {
    if |offers| > 0 {
      var tail := offers[1..];
      DecideIsFirst(tail, answers);
      assert RefusedBefore(offers, answers, 0);
      if answers(offers[0]) == Refuses {
        forall i | 0 <= i < |tail| ensures RefusedBefore(offers, answers, i + 1) <==> RefusedBefore(tail, answers, i) {
          RefusedShift(offers, answers, i);
        }
        if i :| 0 <= i < |tail| && answers(tail[i]) != Refuses && RefusedBefore(tail, answers, i) {
          assert offers[i + 1] == tail[i] && RefusedBefore(offers, answers, i + 1);
        }
        if i :| 0 <= i < |offers| && answers(offers[i]) != Refuses && RefusedBefore(offers, answers, i) {
          assert i > 0 && tail[i - 1] == offers[i] && RefusedBefore(offers, answers, (i - 1) + 1);
        }
      }
    }
  }

  predicate RefusedBefore(offers: seq<nat>, answers: Answers, i: nat)
    requires i <= |offers|
  {
    forall j | 0 <= j < i :: answers(offers[j]) == Refuses
  }

  lemma RefusedShift(offers: seq<nat>, answers: Answers, i: nat)
    requires |offers| > 0 && i < |offers| && answers(offers[0]) == Refuses && i <= |offers[1..]|
    ensures RefusedBefore(offers, answers, i + 1) <==> RefusedBefore(offers[1..], answers, i)
  {
    if RefusedBefore(offers[1..], answers, i) {
      forall j | 0 <= j < i + 1 ensures answers(offers[j]) == Refuses {
        assert j > 0 ==> offers[j] == offers[1..][j - 1];
      }
    }
    if RefusedBefore(offers, answers, i + 1) {
      forall j | 0 <= j < i ensures answers(offers[1..][j]) == Refuses {
        assert offers[1..][j] == offers[j + 1];
      }
    }
  }

  /**
   When no handler throws, an event some handler accepts is handled, unless the only
   ones that accept it are registered for its own untyped event type.
   */
  lemma AcceptedIsHandled(types: seq<Text>, eventType: Text, answers: Answers)
    requires Distinct(types) && forall h | 0 <= h < |types| :: answers(h) != Throws
    ensures Decide(Offers(types, eventType), answers).Handled? <==>
      exists h | 0 <= h < |types| :: answers(h) == Accepts && IsOffered(types, eventType, h)
  {
    var offers := Offers(types, eventType);
    forall h: nat ensures h in offers <==> IsOffered(types, eventType, h) {
      OffersAreExact(types, eventType, h);
    }
    NoThrowFindsFirst(offers, answers);
  }

  lemma {:induction false} NoThrowFindsFirst(offers: seq<nat>, answers: Answers)
    requires forall h | h in offers :: answers(h) != Throws
    ensures Decide(offers, answers).Handled? <==> exists h :: h in offers && answers(h) == Accepts
  {
    if |offers| > 0 {
      NoThrowFindsFirst(offers[1..], answers);
      assert offers == [offers[0]] + offers[1..];
    }
  }

  // ---------------------------------------------------------------- dispatch, handler by handler

  /** The event is offered to handler h: any but one registered for the empty or unknown type of the event itself. */
  predicate IsOffered(types: seq<Text>, eventType: Text, h: nat) {
    h < |types| && (types[h] == eventType ==> eventType != [] && eventType != Name("unknown"))
  }

  /** The handler of the event's own type comes first, the others in the order of registration. */
  predicate ComesBefore(types: seq<Text>, eventType: Text, g: nat, h: nat)
    requires g < |types| && h < |types|
  {
    g != h && (types[g] == eventType || (types[h] != eventType && g < h))
  }

  predicate Ascends(hs: seq<nat>) {
    forall i, j | 0 <= i < j < |hs| :: hs[i] < hs[j]
  }

  lemma PrependAscends(n: nat, hs: seq<nat>)
    requires Ascends(hs) && forall h | h in hs :: n < h
    ensures Ascends([n] + hs)
  {
    var more := [n] + hs;
    forall i, j | 0 <= i < j < |more| ensures more[i] < more[j] {
      assert more[j] == hs[j - 1] && hs[j - 1] in hs;
      assert i > 0 ==> more[i] == hs[i - 1];
    }
  }

  lemma {:induction false} OthersAscend(types: seq<Text>, eventType: Text, n: nat)
    requires n <= |types|
    ensures Ascends(OthersFrom(types, eventType, n))
    decreases |types| - n
  {
    if n < |types| {
      OthersAscend(types, eventType, n + 1);
      if types[n] != eventType { PrependAscends(n, OthersFrom(types, eventType, n + 1)); }
    }
  }

  lemma OffersInOrder(types: seq<Text>, eventType: Text, i: nat, j: nat)
    requires Distinct(types) && i < j < |Offers(types, eventType)|
    ensures
      var g, h := Offers(types, eventType)[i], Offers(types, eventType)[j];
      g < |types| && h < |types| && ComesBefore(types, eventType, g, h) && !ComesBefore(types, eventType, h, g)
  {
    var others := OthersFrom(types, eventType, 0);
    var own := |Offers(types, eventType)| - |others|;
    assert own <= 1 && Offers(types, eventType)[j] == others[j - own];
    assert others[j - own] in others;
    if i >= own {
      assert Offers(types, eventType)[i] == others[i - own] && others[i - own] in others;
      OthersAscend(types, eventType, 0);
    }
  }

  lemma {:induction false} DecidesAt(offers: seq<nat>, answers: Answers, i: nat)
    requires i < |offers| && RefusedBefore(offers, answers, i) && answers(offers[i]) != Refuses
    ensures Decide(offers, answers) == if answers(offers[i]) == Accepts then Handled(offers[i]) else Threw(offers[i])
  {
    if i > 0 {
      RefusedShift(offers, answers, i - 1);
      DecidesAt(offers[1..], answers, i - 1);
    }
  }

  /** Every handler offered before h refuses. */
  ghost predicate AllBeforeRefuse(types: seq<Text>, eventType: Text, answers: Answers, h: nat)
    requires h < |types|
  {
    forall g: nat | g < |types| && IsOffered(types, eventType, g) && ComesBefore(types, eventType, g, h) :: answers(g) == Refuses
  }

  lemma RefusalsAgree(types: seq<Text>, eventType: Text, answers: Answers, i: nat)
    requires Distinct(types) && i < |Offers(types, eventType)| && Offers(types, eventType)[i] < |types|
    ensures RefusedBefore(Offers(types, eventType), answers, i) <==>
      AllBeforeRefuse(types, eventType, answers, Offers(types, eventType)[i])
  {
    var offers := Offers(types, eventType);
    if RefusedBefore(offers, answers, i) {
      forall g: nat | g < |types| && IsOffered(types, eventType, g) && ComesBefore(types, eventType, g, offers[i])
        ensures answers(g) == Refuses
      {
        OffersAreExact(types, eventType, g);
        var k :| 0 <= k < |offers| && offers[k] == g;
        if k > i { OffersInOrder(types, eventType, i, k); }
      }
    }
    if AllBeforeRefuse(types, eventType, answers, offers[i]) {
      forall k | 0 <= k < i ensures answers(offers[k]) == Refuses {
        OffersInOrder(types, eventType, k, i);
        OffersAreExact(types, eventType, offers[k]);
      }
    }
  }

  /** Dispatch ends at handler h exactly if h is offered the event and does not refuse, and all before it refuse. */
  lemma DispatchEndsAt(types: seq<Text>, eventType: Text, answers: Answers, h: nat)
    requires Distinct(types)
    ensures
      var r := Decide(Offers(types, eventType), answers);
      && (r == Handled(h) <==>
            h < |types| && IsOffered(types, eventType, h) && answers(h) == Accepts && AllBeforeRefuse(types, eventType, answers, h))
      && (r == Threw(h) <==>
            h < |types| && IsOffered(types, eventType, h) && answers(h) == Throws && AllBeforeRefuse(types, eventType, answers, h))
  {
    var offers := Offers(types, eventType);
    OffersAreExact(types, eventType, h);
    DecideIsFirst(offers, answers);
    if h in offers {
      var i :| 0 <= i < |offers| && offers[i] == h;
      RefusalsAgree(types, eventType, answers, i);
      if answers(h) != Refuses && RefusedBefore(offers, answers, i) { DecidesAt(offers, answers, i); }
    }
    if k :| 0 <= k < |offers| && answers(offers[k]) != Refuses && RefusedBefore(offers, answers, k) {
      DecidesAt(offers, answers, k);
      OffersAreExact(types, eventType, offers[k]);
      RefusalsAgree(types, eventType, answers, k);
    }
  }

  /** A handler registered for "unknown" never sees an event of that type. */
  lemma UnknownIsNeverOffered(answers: Answers)
    ensures Decide(Offers([Name(UNKNOWN)], Name(UNKNOWN)), answers) == Unhandled
  {
    var unknown := Name(UNKNOWN);
    assert OthersFrom([unknown], unknown, 1) == [];
    assert Offers([unknown], unknown) == [];
  }
}
