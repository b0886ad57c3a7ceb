/** What the memory holds, said in the callers' terms: events, their texts, and the words they share with a query. */
module MemoryContents {
  import opened MemoryIndex
  import opened MemoryAgreement
  import opened MemoryHistory
  import opened MemoryRuns
  import opened MemorySearch
  import opened Tokens

  const UNKNOWN_SESSION_ID := "__unknown_session_id__"

  /** An event as the caller passes it; `text` is empty when it has no content. */
  datatype Event = Event(id: string, ts: nat, text: string)

  function Prepared(e: Event): MemoryEvent {
    MemoryEvent(e.id, e.ts, e.text, Tokenize(e.text))
  }

  function PreparedAll(events: seq<Event>): (prepared: seq<MemoryEvent>)
    ensures |prepared| == |events| && forall i :: 0 <= i < |events| ==> prepared[i] == Prepared(events[i])
  {
    if events == [] then [] else [Prepared(events[0])] + PreparedAll(events[1..])
  }

  /** Tokenizing lists no keyword twice. */
  lemma PreparedIsWellFormed(events: seq<Event>)
    requires forall e :: e in events ==> e.id != ""
    ensures WellFormed(PreparedAll(events))
  {
    hide Tokenize;
    forall i | 0 <= i < |events| ensures Distinct(PreparedAll(events)[i].keywords) && PreparedAll(events)[i].id != "" {
      TokenizeMeaning(events[i].text, "");
    }
  }

  // ---- stored events -----------------------------------------------------------------------------

  type Contents = map<RowId, Event>

  /** Each event with its row: same text, same time, and exactly the tokens of the text as keywords. */
  ghost predicate Represents(rows: map<RowId, Row>, stored: Contents) {
    && rows.Keys == stored.Keys
    && forall id :: id in rows ==> RowHolds(rows[id], id, stored[id])
  }

  ghost predicate RowHolds(row: Row, id: RowId, e: Event) {
    && e.id == id.event && e.text != "" && row.text == e.text && row.ts == e.ts
    && forall t :: t in row.keywords <==> t in Tokenize(e.text)
  }

  /** The events of a call that have a text, by the row they go to; of two with the same id the first. */
  function Incoming(app: string, user: string, session: string, events: seq<Event>): Contents {
    if events == [] then map[]
    else
      var rest := Incoming(app, user, session, events[1..]);
      if events[0].text == "" then rest else rest[RowId(app, user, session, events[0].id) := events[0]]
  }

  /** Event ids are non-empty, and distinct among the events with a text. */
  predicate ProperIds(events: seq<Event>) {
    && (forall e :: e in events ==> e.id != "")
    && forall i, j :: 0 <= i < j < |events| && events[i].text != "" && events[j].text != "" ==> events[i].id != events[j].id
  }

  /** The row is not one of the session's. */
  predicate Outside(id: RowId, app: string, user: string, session: string) {
    id.app != app || id.user != user || id.session != session
  }

  /** Every event with a text is stored under its session, and every other one as before, or of the session not at all. */
  ghost predicate SessionReplaced(before: Contents, after: Contents, app: string, user: string, session: string, events: seq<Event>) {
    && (forall e :: e in events && e.text != "" ==> RowId(app, user, session, e.id) in after && after[RowId(app, user, session, e.id)] == e)
    && (forall id :: id in before && Outside(id, app, user, session) ==> id in after && after[id] == before[id])
    && (forall id :: id in after && !Outside(id, app, user, session) ==> exists e :: e in events && e.text != "" && e.id == id.event)
    && (forall id :: id in after && Outside(id, app, user, session) ==> id in before)
  }

  /** Every event with a text is stored if its row was free; nothing stored changes, and nothing else is added. */
  ghost predicate EventsAdded(before: Contents, after: Contents, app: string, user: string, session: string, events: seq<Event>) {
    && (forall e :: e in events && e.text != "" ==>
          var id := RowId(app, user, session, e.id); id in after && (id !in before ==> after[id] == e))
    && (forall id :: id in before ==> id in after && after[id] == before[id])
    && (forall id :: id in after && id !in before ==> !Outside(id, app, user, session) && exists e :: e in events && e.text != "" && e.id == id.event)
  }

  function Kept(stored: Contents, app: string, user: string, session: string): Contents {
    map id | id in stored && Outside(id, app, user, session) :: stored[id]
  }

  function AfterAddSession(stored: Contents, app: string, user: string, session: string, events: seq<Event>): Contents {
    Incoming(app, user, session, events) + Kept(stored, app, user, session)
  }

  function AfterAddEvents(stored: Contents, app: string, user: string, session: string, events: seq<Event>): Contents {
    Incoming(app, user, session, events) + stored
  }

  lemma {:induction false} IncomingMeaning(app: string, user: string, session: string, events: seq<Event>)
    requires ProperIds(events)
    ensures var incoming := Incoming(app, user, session, events);
            && (forall e :: e in events && e.text != "" ==> RowId(app, user, session, e.id) in incoming && incoming[RowId(app, user, session, e.id)] == e)
            && (forall id :: id in incoming ==> !Outside(id, app, user, session) && exists e :: e in events && e.text != "" && e.id == id.event)
  {
    if events != [] {
      var rest := events[1..];
      assert forall i :: 0 <= i < |rest| ==> rest[i] == events[i + 1];
      IncomingMeaning(app, user, session, rest);
      assert events == [events[0]] + rest;
    }
  }

  lemma AddSessionMeaning(stored: Contents, app: string, user: string, session: string, events: seq<Event>)
    requires ProperIds(events)
    ensures SessionReplaced(stored, AfterAddSession(stored, app, user, session, events), app, user, session, events)
  {
    hide Incoming, ProperIds;
    IncomingMeaning(app, user, session, events);
  }

  lemma AddEventsMeaning(stored: Contents, app: string, user: string, session: string, events: seq<Event>)
    requires ProperIds(events)
    ensures EventsAdded(stored, AfterAddEvents(stored, app, user, session, events), app, user, session, events)
  {
    hide Incoming, ProperIds;
    IncomingMeaning(app, user, session, events);
  }

  // ---- rows and events -------------------------------------------------------------------------------

  lemma PreparedHolds(e: Event, id: RowId)
    requires e.text != "" && id.event == e.id
    ensures RowHolds(RowFor(Prepared(e)), id, e)
  {
    hide Tokenize;
  }

  lemma {:induction false} RowsOfRepresent(slot: Slot, events: seq<Event>)
    ensures Represents(RowsOf(slot, PreparedAll(events)), Incoming(slot.app, slot.user, slot.session, events))
  {
    hide RowHolds, Prepared;
    if events != [] {
      var all := PreparedAll(events);
      assert all[1..] == PreparedAll(events[1..]);
      RowsOfRepresent(slot, events[1..]);
      if events[0].text != "" {
        PreparedHolds(events[0], RowId(slot.app, slot.user, slot.session, events[0].id));
      }
      PreparedKeeps(events[0], slot);
    }
  }

  lemma PreparedKeeps(e: Event, slot: Slot)
    ensures Searchable(Prepared(e)) <==> e.text != ""
    ensures RowIdOf(slot, Prepared(e)) == RowId(slot.app, slot.user, slot.session, e.id)
  {
  }

  lemma RepresentSum(rows: map<RowId, Row>, stored: Contents, more: map<RowId, Row>, stored': Contents)
    requires Represents(rows, stored) && Represents(more, stored')
    ensures Represents(rows + more, stored + stored')
  {
    hide RowHolds;
  }

  lemma RepresentKept(rows: map<RowId, Row>, stored: Contents, slot: Slot)
    requires Represents(rows, stored)
    ensures Represents(map id | id in rows && SlotOf(id) != slot :: rows[id], Kept(stored, slot.app, slot.user, slot.session))
  {
    hide RowHolds;
  }

  // ---- room ------------------------------------------------------------------------------------------

  /** The stored events of a user. */
  function OfUser(stored: Contents, app: string, user: string): set<RowId> {
    set id | id in stored && id.app == app && id.user == user
  }

  /** In an agreeing index a list is no longer than its user has rows. */
  lemma ListsAreShort(ix: Index, stored: Contents, list: ListId)
    requires Agree(ix) && ix.rows.Keys == stored.Keys
    ensures |Posts(ix, list)| <= |OfUser(stored, list.app, list.user)|
  {
    var refs := Posts(ix, list);
    forall ref ensures multiset(refs)[ref] <= 1 {
      assert Count(ix, list, ref) <= 1;
    }
    forall i, j | 0 <= i < j < |refs| ensures refs[i] != refs[j] {
      RefsDistinct(refs, i, j);
    }
    forall i | 0 <= i < |refs| ensures RowOf(list, refs[i]) in OfUser(stored, list.app, list.user) && ix.rows[RowOf(list, refs[i])].ts == refs[i].ts {
      assert Count(ix, list, refs[i]) >= 1;
      assert Points(ix, list, refs[i]);
    }
    RowsOfRefsCount(ix, list, refs, |refs|);
    SubsetSize(set i | 0 <= i < |refs| :: RowOf(list, refs[i]), OfUser(stored, list.app, list.user));
  }

  lemma RefsDistinct(refs: seq<Ref>, i: nat, j: nat)
    requires i < j < |refs| && forall ref :: multiset(refs)[ref] <= 1
    ensures refs[i] != refs[j]
  {
    assert refs == refs[..j] + refs[j..];
    assert refs[i] in refs[..j] && refs[j] in refs[j..];
    assert multiset(refs)[refs[i]] == multiset(refs[..j])[refs[i]] + multiset(refs[j..])[refs[i]];
  }

  lemma {:induction false} RowsOfRefsCount(ix: Index, list: ListId, refs: seq<Ref>, n: nat)
    requires n <= |refs|
    requires forall i, j :: 0 <= i < j < |refs| ==> refs[i] != refs[j]
    requires forall i :: 0 <= i < |refs| ==> RowOf(list, refs[i]) in ix.rows && ix.rows[RowOf(list, refs[i])].ts == refs[i].ts
    ensures |set i | 0 <= i < n :: RowOf(list, refs[i])| == n
  {
    if n > 0 {
      RowsOfRefsCount(ix, list, refs, n - 1);
      var less := set i | 0 <= i < n - 1 :: RowOf(list, refs[i]);
      var id := RowOf(list, refs[n - 1]);
      assert id !in less by {
        forall i | 0 <= i < n - 1 ensures RowOf(list, refs[i]) != id {
          assert refs[i] != refs[n - 1];
        }
      }
      assert (set i | 0 <= i < n :: RowOf(list, refs[i])) == less + {id};
    }
  }

  lemma {:induction false} SearchablesAreFew(events: seq<Event>)
    ensures Searchables(PreparedAll(events)) <= |events|
  {
    if events != [] {
      assert PreparedAll(events)[1..] == PreparedAll(events[1..]);
      SearchablesAreFew(events[1..]);
    }
  }

  // ---- the two calls -----------------------------------------------------------------------------------

  lemma CallHasRoom(ix: Index, stored: Contents, call: Call, events: seq<Event>)
    requires Agree(ix) && ix.rows.Keys == stored.Keys && CallOk(ix, call) && call.events == PreparedAll(events)
    requires |OfUser(stored, call.slot.app, call.slot.user)| + |events| <= 2048
    ensures NoTrim(CallOps(ix, call))
  {
    hide Agree, CallOk, CallOps, OfUser, Posts, NoTrim;
    SearchablesAreFew(events);
    forall t ensures |Posts(ix, ListId(call.slot.app, call.slot.user, t))| + Searchables(call.events) <= MAX_POSTING_LIST_SIZE {
      ListsAreShort(ix, stored, ListId(call.slot.app, call.slot.user, t));
    }
    RoomyCallNeverTrims(ix, call);
  }

  lemma DistinctWhenProper(events: seq<Event>)
    requires ProperIds(events)
    ensures DistinctIds(PreparedAll(events)) && WellFormed(PreparedAll(events))
  {
    PreparedIsWellFormed(events);
  }

  lemma SessionAdded(ix: Index, stored: Contents, slot: Slot, found: seq<(RowId, Row)>, events: seq<Event>)
    requires Agree(ix) && Represents(ix.rows, stored) && Enumerates(ix, slot, found) && ProperIds(events)
    requires |OfUser(stored, slot.app, slot.user)| + |events| <= 2048
    ensures var after := Exec(ix, AddSessionOps(ix, slot, found, PreparedAll(events)));
            Agree(after) && Represents(after.rows, AfterAddSession(stored, slot.app, slot.user, slot.session, events))
  {
    hide Agree, RowHolds, Enumerates, OfUser, RowsOf, Incoming, ProperIds, DistinctIds, WellFormed, AddSessionOps, NoTrim, Exec;
    var call := AddSession(slot, found, PreparedAll(events));
    DistinctWhenProper(events);
    CallHasRoom(ix, stored, call, events);
    NamedWhenAgree(ix);
    CallAgrees(ix, call);
    CallRows(ix, call);
    RowsOfRepresent(slot, events);
    RepresentKept(ix.rows, stored, slot);
    RepresentSum(RowsOf(slot, PreparedAll(events)), Incoming(slot.app, slot.user, slot.session, events),
                 map id | id in ix.rows && SlotOf(id) != slot :: ix.rows[id], Kept(stored, slot.app, slot.user, slot.session));
  }

  lemma EventsAddedTo(ix: Index, stored: Contents, slot: Slot, events: seq<Event>)
    requires Agree(ix) && Represents(ix.rows, stored) && ProperIds(events)
    requires |OfUser(stored, slot.app, slot.user)| + |events| <= 2048
    ensures var after := Exec(ix, AddEventsOps(ix, slot, PreparedAll(events)));
            Agree(after) && Represents(after.rows, AfterAddEvents(stored, slot.app, slot.user, slot.session, events))
  {
    hide Agree, RowHolds, OfUser, RowsOf, Incoming, ProperIds, DistinctIds, WellFormed, AddEventsOps, NoTrim, Exec;
    var call := AddEvents(slot, PreparedAll(events));
    DistinctWhenProper(events);
    CallHasRoom(ix, stored, call, events);
    NamedWhenAgree(ix);
    CallAgrees(ix, call);
    CallRows(ix, call);
    RowsOfRepresent(slot, events);
    RepresentSum(RowsOf(slot, PreparedAll(events)), Incoming(slot.app, slot.user, slot.session, events), ix.rows, stored);
  }

  // ---- search --------------------------------------------------------------------------------------------

  /** The user's events that share a word with the query. */
  ghost predicate Hits(stored: Contents, app: string, user: string, query: string, id: RowId) {
    id in stored && id.app == app && id.user == user && SharesWord(stored[id].text, query)
  }

  ghost function HitIds(stored: Contents, app: string, user: string, query: string): set<RowId> {
    set id | id in stored && Hits(stored, app, user, query, id)
  }

  /** How many tokens of the query an event's text has. */
  function SharedTokens(text: string, query: string): nat {
    |set t | t in Tokenize(text) && t in Tokenize(query)|
  }

  /** The k best of exactly the events that share a word with the query: more shared tokens first, then the newer. */
  ghost predicate TopEvents(stored: Contents, app: string, user: string, query: string, hits: seq<Hit>, k: nat) {
    var all := HitIds(stored, app, user, query);
    && (forall i :: 0 <= i < |hits| ==> hits[i].id in all && hits[i].row.text == stored[hits[i].id].text)
    && (forall i, j :: 0 <= i < j < |hits| ==> hits[i].id != hits[j].id)
    && |hits| == (if |all| <= k then |all| else k)
    && (forall i, j :: 0 <= i < j < |hits| ==> RanksNoLower(stored[hits[i].id], stored[hits[j].id], query))
    && forall id :: id in all ==> (exists i :: 0 <= i < |hits| && hits[i].id == id)
                                  || forall i :: 0 <= i < |hits| ==> RanksNoLower(stored[hits[i].id], stored[id], query)
  }

  predicate RanksNoLower(e: Event, f: Event, query: string) {
    || SharedTokens(e.text, query) > SharedTokens(f.text, query)
    || (SharedTokens(e.text, query) == SharedTokens(f.text, query) && e.ts >= f.ts)
  }

  /** No two of them share an event id, there are at most 512, and all belong to a session. */
  ghost predicate WithinReach(stored: Contents, app: string, user: string, query: string) {
    var all := HitIds(stored, app, user, query);
    && |all| <= 512
    && (forall a, b :: a in all && b in all && a.event == b.event ==> a == b)
    && forall id :: id in stored && id.app == app && id.user == user ==> id.session != ""
  }

  lemma OverlapIsShared(row: Row, id: RowId, e: Event, query: string)
    requires RowHolds(row, id, e)
    ensures Overlap(row.keywords, Tokenize(query)) == SharedTokens(e.text, query)
  {
    hide Tokenize;
    assert TokensIn(row.keywords) * TokensIn(Tokenize(query)) == set t | t in Tokenize(e.text) && t in Tokenize(query);
  }

  lemma SharedIffWord(text: string, query: string)
    ensures SharedTokens(text, query) > 0 <==> SharesWord(text, query)
  {
    hide Tokenize, SharesWord;
    SharedTokenIff(text, query);
    var shared := set t | t in Tokenize(text) && t in Tokenize(query);
    if exists t :: t in Tokenize(text) && t in Tokenize(query) {
      var t :| t in Tokenize(text) && t in Tokenize(query);
      assert t in shared;
    }
    if |shared| > 0 {
      var t :| t in shared;
    }
  }

  lemma MeetsIffHits(ix: Index, stored: Contents, app: string, user: string, query: string, id: RowId)
    requires Represents(ix.rows, stored)
    ensures Meets(ix, app, user, Tokenize(query), id) <==> Hits(stored, app, user, query, id)
  {
    hide Tokenize, RowHolds, SharesWord, SharedTokens, Overlap;
    if id in stored {
      OverlapIsShared(ix.rows[id], id, stored[id], query);
      SharedIffWord(stored[id].text, query);
    }
  }

  lemma MatchesAreHits(ix: Index, stored: Contents, app: string, user: string, query: string)
    requires Represents(ix.rows, stored)
    ensures Matches(ix, app, user, Tokenize(query)) == HitIds(stored, app, user, query)
  {
    hide Tokenize, RowHolds, Hits, Meets;
    forall id ensures id in Matches(ix, app, user, Tokenize(query)) <==> id in HitIds(stored, app, user, query) {
      MeetsIffHits(ix, stored, app, user, query, id);
    }
  }

  lemma ReachIsFindable(ix: Index, stored: Contents, app: string, user: string, query: string)
    requires Represents(ix.rows, stored) && WithinReach(stored, app, user, query)
    ensures SessionsNamed(ix, app, user) && Findable(ix, app, user, Tokenize(query))
  {
    hide Tokenize, RowHolds, Hits, Meets, HitIds, Matches;
    MatchesAreHits(ix, stored, app, user, query);
  }

  lemma RankOfHits(ix: Index, stored: Contents, query: string, a: RowId, b: RowId)
    requires Represents(ix.rows, stored) && a in ix.rows && b in ix.rows
    ensures Before(HitOf(ix, Tokenize(query), a), HitOf(ix, Tokenize(query), b)) <==> RanksNoLower(stored[a], stored[b], query)
  {
    hide Tokenize, SharedTokens, Overlap;
    OverlapIsShared(ix.rows[a], a, stored[a], query);
    OverlapIsShared(ix.rows[b], b, stored[b], query);
  }

  /** The k best matching rows are the k best events. */
  lemma TopIsTopEvents(ix: Index, stored: Contents, app: string, user: string, query: string, hits: seq<Hit>, k: nat)
    requires Represents(ix.rows, stored) && TopK(ix, app, user, Tokenize(query), hits, k)
    ensures TopEvents(stored, app, user, query, hits, k)
  {
    hide Tokenize, Before, HitIds, Matches, RanksNoLower, Meets;
    MatchesAreHits(ix, stored, app, user, query);
    var all := HitIds(stored, app, user, query);
    MatchesAreRows(ix, app, user, Tokenize(query));
    forall i, j | 0 <= i < j < |hits| ensures RanksNoLower(stored[hits[i].id], stored[hits[j].id], query) {
      RankOfHits(ix, stored, query, hits[i].id, hits[j].id);
    }
    forall id | id in all && forall i :: 0 <= i < |hits| ==> hits[i].id != id
      ensures forall i :: 0 <= i < |hits| ==> RanksNoLower(stored[hits[i].id], stored[id], query)
    {
      forall i | 0 <= i < |hits| ensures RanksNoLower(stored[hits[i].id], stored[id], query) {
        RankOfHits(ix, stored, query, hits[i].id, id);
      }
    }
  }

  lemma MatchesAreRows(ix: Index, app: string, user: string, query: seq<string>)
    ensures forall id :: id in Matches(ix, app, user, query) ==> id in ix.rows
  {
  }
}
