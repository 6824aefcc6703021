/**
 The change feed: what one page of getEventsPage holds, and the ordering contract
 that the API client checks before the processor sees a page.
 */
module ChangeFeed {
  import opened Wrappers
  import opened Texts
  import opened Rows
  import opened EventStore

  /** One exact version of a row, as the feed sends it. */
  datatype Event = Event(key: Identity, row: Row)

  function SequenceOf(e: Event): nat {
    e.row.changeSequence
  }

  /** The stored row is the version the event shows. */
  predicate IsCurrent(rows: map<Identity, Row>, e: Event) {
    e.key in rows && rows[e.key] == e.row
  }

  predicate Handles(types: set<Text>, e: Event) {
    e.row.columns.eventType in types
  }

  /** Strictly increasing change sequences, all above the cursor. */
  ghost predicate Ascending(page: seq<Event>, cursor: nat) {
    && (forall i | 0 <= i < |page| :: cursor < SequenceOf(page[i]))
    && (forall i, j | 0 <= i < j < |page| :: SequenceOf(page[i]) < SequenceOf(page[j]))
  }

  /** The event is in the page, or it comes after a page that is full. */
  predicate Covered(page: seq<Event>, limit: nat, e: Event) {
    e in page || (|page| >= limit > 0 && SequenceOf(e) > SequenceOf(page[|page| - 1]))
  }

  /** SELECT ... WHERE change_sequence > cursor AND event_type IN types ORDER BY change_sequence LIMIT limit. */
  ghost predicate PageOf(rows: map<Identity, Row>, types: set<Text>, cursor: nat, limit: nat, page: seq<Event>) {
    && |page| <= limit && Ascending(page, cursor)
    && (forall i | 0 <= i < |page| :: IsCurrent(rows, page[i]) && Handles(types, page[i]))
    && (forall e: Event | IsCurrent(rows, e) && Handles(types, e) && SequenceOf(e) > cursor :: Covered(page, limit, e))
  }

  /** The rows still to be listed. */
  function Remaining(rows: map<Identity, Row>, types: set<Text>, cursor: nat): set<Identity> {
    set id | id in rows && rows[id].columns.eventType in types && rows[id].changeSequence > cursor
  }

  /** The remaining row with the least change sequence. */
  method Least(rows: map<Identity, Row>, ids: set<Identity>) returns (least: Identity)
    requires ids != {} && ids <= rows.Keys
    ensures least in ids && forall id | id in ids :: rows[least].changeSequence <= rows[id].changeSequence
  {
    least :| least in ids;
    var left := ids - {least};
    while left != {}
      invariant least in ids && left <= ids
      invariant forall id | id in ids - left :: rows[least].changeSequence <= rows[id].changeSequence
      decreases left
    {
      var id :| id in left;
      if rows[id].changeSequence < rows[least].changeSequence {
        least := id;
      }
      left := left - {id};
    }
  }

  /** The page lists the first of the remaining rows; left are those after it. */
  ghost predicate Listing(t: Table, types: set<Text>, cursor: nat, page: seq<Event>, left: set<Identity>) {
    && Ascending(page, cursor)
    && (forall i | 0 <= i < |page| :: IsCurrent(t.rows, page[i]) && Handles(types, page[i]))
    && left <= Remaining(t.rows, types, cursor)
    && (forall id | id in Remaining(t.rows, types, cursor) && id !in left :: Event(id, t.rows[id]) in page)
    && (forall id | id in left :: |page| > 0 ==> SequenceOf(page[|page| - 1]) < t.rows[id].changeSequence)
  }

  lemma ListsOneMore(t: Table, types: set<Text>, cursor: nat, page: seq<Event>, left: set<Identity>, id: Identity)
    requires WellNumbered(t) && Listing(t, types, cursor, page, left) && id in left
    requires forall other | other in left :: t.rows[id].changeSequence <= t.rows[other].changeSequence
    ensures Listing(t, types, cursor, page + [Event(id, t.rows[id])], left - {id})
  {
    var more := page + [Event(id, t.rows[id])];
    AppendAscends(page, cursor, Event(id, t.rows[id]));
    LeastIsStrict(t, left, id);
    forall other | other in Remaining(t.rows, types, cursor) && other !in left - {id} ensures Event(other, t.rows[other]) in more {
      assert other == id || Event(other, t.rows[other]) in page;
      assert more[|page|] == Event(id, t.rows[id]);
    }
  }

  lemma AppendAscends(page: seq<Event>, cursor: nat, e: Event)
    requires Ascending(page, cursor) && cursor < SequenceOf(e)
    requires |page| > 0 ==> SequenceOf(page[|page| - 1]) < SequenceOf(e)
    ensures Ascending(page + [e], cursor)
  {
    forall i | 0 <= i < |page| ensures SequenceOf(page[i]) < SequenceOf(e) {
      assert i == |page| - 1 || SequenceOf(page[i]) < SequenceOf(page[|page| - 1]);
    }
  }

  lemma LeastIsStrict(t: Table, left: set<Identity>, id: Identity)
    requires WellNumbered(t) && left <= t.rows.Keys && id in left
    requires forall other | other in left :: t.rows[id].changeSequence <= t.rows[other].changeSequence
    ensures forall other | other in left - {id} :: t.rows[id].changeSequence < t.rows[other].changeSequence
  {
    assert forall other | other in left - {id} :: Apart(t.rows, id, other);
  }

  lemma ListedPage(t: Table, types: set<Text>, cursor: nat, limit: nat, page: seq<Event>, left: set<Identity>)
    requires Listing(t, types, cursor, page, left) && |page| <= limit && limit >= 1 && (|page| == limit || left == {})
    ensures PageOf(t.rows, types, cursor, limit, page)
  {
    forall e: Event | IsCurrent(t.rows, e) && Handles(types, e) && SequenceOf(e) > cursor ensures Covered(page, limit, e) {
      assert e.key in Remaining(t.rows, types, cursor) && e == Event(e.key, t.rows[e.key]);
    }
  }

  /** getEventsPage under a change sequence cursor. */
  method GetEventsPage(t: Table, types: set<Text>, cursor: nat, limit: nat) returns (page: seq<Event>)
    requires WellNumbered(t) && limit >= 1
    ensures PageOf(t.rows, types, cursor, limit, page)
  {
    page := [];
    var left := Remaining(t.rows, types, cursor);
    while |page| < limit && left != {}
      invariant |page| <= limit && Listing(t, types, cursor, page, left)
      decreases left
    {
      var id := Least(t.rows, left);
      ListsOneMore(t, types, cursor, page, left, id);
      left := left - {id};
      page := page + [Event(id, t.rows[id])];
    }
    ListedPage(t, types, cursor, limit, page, left);
  }

  // ---------------------------------------------------------------- response contract

  datatype RawCursor = NoCursor | CursorAt(changeSequenceAfter: nat) | MalformedCursor

  /** A response body: the change sequence of each item that is an event, None for one that is not. */
  datatype Response = NotAList | Response(items: seq<Option<nat>>, nextCursor: RawCursor)

  datatype Contract = ItemsMissing | ItemInvalid | NotAscending | CursorMalformed | CursorNotLast | CursorWithoutItems

  datatype Page = Page(sequences: seq<nat>, nextCursor: Option<nat>)

  /** What the consumer relies on. */
  ghost predicate MeetsContract(response: Response, cursor: nat, page: Page) {
    && response.Response?
    && |page.sequences| == |response.items|
    && (forall i | 0 <= i < |response.items| :: response.items[i] == Some(page.sequences[i]))
    && (forall i | 0 <= i < |page.sequences| :: cursor < page.sequences[i])
    && (forall i, j | 0 <= i < j < |page.sequences| :: page.sequences[i] < page.sequences[j])
    && page.nextCursor == (if |page.sequences| == 0 then None else Some(page.sequences[|page.sequences| - 1]))
    && response.nextCursor == (if page.nextCursor.None? then NoCursor else CursorAt(page.nextCursor.value))
  }

  lemma ContractKeepsSequences(response: Response, cursor: nat, page: Page, sequences: seq<nat>)
    requires response.Response? && |sequences| == |response.items|
    requires forall i | 0 <= i < |sequences| :: response.items[i] == Some(sequences[i])
    ensures MeetsContract(response, cursor, page) ==> page.sequences == sequences
  {
  }

  /** validateResponse: a response passes exactly when it meets the contract, and then unchanged. */
  method ValidateResponse(response: Response, changeSequenceAfter: nat) returns (r: Result<Page, Contract>)
    ensures r.Success? ==> MeetsContract(response, changeSequenceAfter, r.value)
    ensures r.Failure? ==> forall page :: !MeetsContract(response, changeSequenceAfter, page)
  {
    if response.NotAList? {
      return Failure(ItemsMissing);
    }
    var sequences := [];
    for index := 0 to |response.items|
      invariant |sequences| == index && forall i | 0 <= i < index :: response.items[i] == Some(sequences[i])
    {
      if response.items[index].None? {
        return Failure(ItemInvalid);
      }
      sequences := sequences + [response.items[index].value];
    }
    var previousSequence := changeSequenceAfter;
    for index := 0 to |sequences|
      invariant previousSequence == if index == 0 then changeSequenceAfter else sequences[index - 1]
      invariant changeSequenceAfter <= previousSequence
      invariant forall i | 0 <= i < index :: changeSequenceAfter < sequences[i] <= previousSequence
      invariant forall i, j | 0 <= i < j < index :: sequences[i] < sequences[j]
    {
      if sequences[index] <= previousSequence {
        forall page ensures !MeetsContract(response, changeSequenceAfter, page) {
          ContractKeepsSequences(response, changeSequenceAfter, page, sequences);
        }
        return Failure(NotAscending);
      }
      previousSequence := sequences[index];
    }
    if response.nextCursor.MalformedCursor? {
      return Failure(CursorMalformed);
    }
    if |sequences| > 0 && response.nextCursor != CursorAt(sequences[|sequences| - 1]) {
      return Failure(CursorNotLast);
    }
    if |sequences| == 0 && response.nextCursor != NoCursor {
      return Failure(CursorWithoutItems);
    }
    r := Success(Page(sequences, if |sequences| == 0 then None else Some(sequences[|sequences| - 1])));
  }

  /** The body the events route sends for a page. */
  function Served(page: seq<Event>): Response {
    Response(
      seq(|page|, i requires 0 <= i < |page| => Some(SequenceOf(page[i]))),
      if |page| == 0 then NoCursor else CursorAt(SequenceOf(page[|page| - 1])))
  }

  function Sequences(page: seq<Event>): seq<nat> {
    seq(|page|, i requires 0 <= i < |page| => SequenceOf(page[i]))
  }

  /** Every page the store serves passes the client's checks, whatever the table holds. */
  lemma PagesMeetContract(rows: map<Identity, Row>, types: set<Text>, cursor: nat, limit: nat, page: seq<Event>)
    requires PageOf(rows, types, cursor, limit, page)
    ensures MeetsContract(
      Served(page), cursor, Page(Sequences(page), if page == [] then None else Some(SequenceOf(page[|page| - 1]))))
  {
  }

  /** A query has one answer. */
  lemma PageIsDetermined(t: Table, types: set<Text>, cursor: nat, limit: nat, p: seq<Event>, q: seq<Event>)
    requires WellNumbered(t) && limit >= 1
    requires PageOf(t.rows, types, cursor, limit, p) && PageOf(t.rows, types, cursor, limit, q)
    ensures p == q
  {
    PageIsPrefix(t, types, cursor, limit, p, q, |p|);
    PageIsPrefix(t, types, cursor, limit, q, p, |q|);
  }

  /** Where two answers agree on the first k items, the second is not ahead of the first at the next one. */
  lemma NotAhead(rows: map<Identity, Row>, types: set<Text>, cursor: nat, limit: nat, p: seq<Event>, q: seq<Event>, k: nat)
    requires PageOf(rows, types, cursor, limit, p) && PageOf(rows, types, cursor, limit, q)
    requires k < |p| && k <= |q| && p[..k] == q[..k]
    ensures k < |q| && SequenceOf(q[k]) <= SequenceOf(p[k])
  {
    forall i | 0 <= i < k ensures p[i] == q[i] {
      assert p[..k][i] == q[..k][i];
    }
    assert Covered(q, limit, p[k]);
    ItemBounds(cursor, limit, p, q, k);
  }

  lemma ItemBounds(cursor: nat, limit: nat, p: seq<Event>, q: seq<Event>, k: nat)
    requires Ascending(p, cursor) && Ascending(q, cursor) && |p| <= limit
    requires k < |p| && k <= |q| && forall i | 0 <= i < k :: p[i] == q[i]
    requires Covered(q, limit, p[k])
    ensures k < |q| && SequenceOf(q[k]) <= SequenceOf(p[k])
  {
    if p[k] in q {
      var m :| 0 <= m < |q| && q[m] == p[k];
    }
  }

  lemma SameSequenceSameRow(t: Table, a: Event, b: Event)
    requires WellNumbered(t) && IsCurrent(t.rows, a) && IsCurrent(t.rows, b) && SequenceOf(a) == SequenceOf(b)
    ensures a == b
  {
    assert a.key != b.key ==> Apart(t.rows, a.key, b.key);
  }

  lemma {:induction false} PageIsPrefix(
    t: Table, types: set<Text>, cursor: nat, limit: nat, p: seq<Event>, q: seq<Event>, n: nat)
    requires WellNumbered(t) && limit >= 1 && n <= |p|
    requires PageOf(t.rows, types, cursor, limit, p) && PageOf(t.rows, types, cursor, limit, q)
    ensures n <= |q| && p[..n] == q[..n]
  {
    if n > 0 {
      var k := n - 1;
      PageIsPrefix(t, types, cursor, limit, p, q, k);
      NotAhead(t.rows, types, cursor, limit, p, q, k);
      NotAhead(t.rows, types, cursor, limit, q, p, k);
      SameSequenceSameRow(t, p[k], q[k]);
      assert p[..n] == p[..k] + [p[k]];
      assert q[..n] == q[..k] + [q[k]];
    }
  }
}
