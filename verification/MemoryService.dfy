/** The memory service: its calls as loops of single-record writes, and search. */
module MemoryService {
  import opened MemoryIndex
  import opened MemoryAgreement
  import opened MemoryContents
  import opened MemoryHistory
  import opened MemoryRuns
  import opened MemorySearch
  import opened Tokens

  class Service {
    const topK: nat
    var rows: map<RowId, Row>
    var postings: map<ListId, seq<Ref>>
    ghost var stored: Contents  // the events that the calls so far left

    function Idx(): Index
      reads `rows, `postings
    {
      Index(rows, postings)
    }

    /** The index holds exactly the events that it should, each under all its tokens. */
    ghost predicate Faithful()
      reads this
    {
      Agree(Idx()) && Represents(rows, stored)
    }

    constructor (topK: nat)
      ensures Idx() == EMPTY_INDEX && this.topK == topK
      ensures Faithful() && stored == map[]
    {
      this.topK, rows, postings, stored := topK, map[], map[], map[];
    }

    /** Append, then trim the front by what exceeds the cap: two writes. */
    method AppendPostingRef(list: ListId, ref: Ref)
      modifies this`postings
      ensures Idx() == Exec(old(Idx()), AppendOps(old(Idx()), list, ref))
    {
      ghost var start := Idx();
      var refs := (if list in postings then postings[list] else []) + [ref];
      postings := postings[list := refs];
      assert Idx() == Do(start, AppendRef(list, ref));
      if |refs| <= MAX_POSTING_LIST_SIZE {
        assert Exec(start, [AppendRef(list, ref)]) == Exec(Idx(), []);
        return;
      }
      var trimCount := |refs| - MAX_POSTING_LIST_SIZE;
      postings := postings[list := refs[trimCount..]];
      AppendTwoSteps(start, list, ref);
    }

    /** The row first, then one ref per keyword. */
    method UpsertMemory(slot: Slot, e: Event)
      modifies `rows, `postings
      ensures Idx() == Exec(old(Idx()), InsertOps(old(Idx()), RowIdOf(slot, Prepared(e)), RowFor(Prepared(e))))
    {
      hide AppendOps;
      var keywords := Tokenize(e.text);
      var id := RowIdOf(slot, Prepared(e));
      ghost var start := Idx();
      rows := rows[id := Row(keywords, e.ts, e.text)];
      ghost var put := Idx();
      InsertIsPutThenRefs(start, id, RowFor(Prepared(e)));
      var ref := Ref(e.id, slot.session, e.ts);
      var i := 0;
      while i < |keywords|
        invariant 0 <= i <= |keywords|
        invariant Exec(Idx(), RefsOps(Idx(), id, ref, keywords[i..])) == Exec(put, RefsOps(put, id, ref, keywords))
      {
        RefsStep(Idx(), id, ref, keywords[i..]);
        AppendPostingRef(ListOf(id, keywords[i]), ref);
        assert keywords[i..][1..] == keywords[i + 1..];
        i := i + 1;
      }
    }

    /** A missing posting record is skipped. */
    method RemovePostingRefs(id: RowId, ts: nat, keywords: seq<string>)
      modifies this`postings
      ensures Idx() == Exec(old(Idx()), RemoveRefsOps(id, Ref(id.event, id.session, ts), keywords))
    {
      hide Drop;
      var ref := Ref(id.event, id.session, ts);
      ghost var start := Idx();
      var i := 0;
      while i < |keywords|
        invariant 0 <= i <= |keywords|
        invariant rows == start.rows
        invariant Exec(Idx(), RemoveRefsOps(id, ref, keywords[i..])) == Exec(start, RemoveRefsOps(id, ref, keywords))
      {
        RemoveStep(Idx(), id, ref, keywords[i..]);
        var list := ListOf(id, keywords[i]);
        if list in postings {
          postings := postings[list := Drop(postings[list], ref)];
        }
        assert keywords[i..][1..] == keywords[i + 1..];
        i := i + 1;
      }
    }

    /** The secondary-index query for a session's rows, in whatever order it answers. */
    method QueryRows(slot: Slot) returns (found: seq<(RowId, Row)>)
      ensures Enumerates(Idx(), slot, found)
    {
      found := [];
      var todo := rows.Keys;
      while todo != {}
        invariant todo <= rows.Keys
        invariant AsStored(Idx(), found)
        invariant forall i :: 0 <= i < |found| ==> SlotOf(found[i].0) == slot && found[i].0 !in todo
        invariant forall id :: id in rows && SlotOf(id) == slot && id !in todo ==> exists i :: 0 <= i < |found| && found[i].0 == id
        decreases |todo|
      {
        var id :| id in todo;
        todo := todo - {id};
        if SlotOf(id) == slot {
          ghost var before := found;
          found := found + [(id, rows[id])];
          assert found[|before|].0 == id;
          assert forall i :: 0 <= i < |before| ==> found[i] == before[i];
        }
      }
    }

    /** Per row of the session: its refs, then the row. */
    method PurgeSessionMemories(slot: Slot) returns (ghost found: seq<(RowId, Row)>)
      modifies `rows, `postings
      ensures Enumerates(old(Idx()), slot, found)
      ensures Idx() == Exec(old(Idx()), PurgeOps(found))
    {
      hide Enumerates, RemoveRefsOps;
      var records := QueryRows(slot);
      found := records;
      ghost var start := Idx();
      var i := 0;
      while i < |records|
        invariant 0 <= i <= |records|
        invariant Exec(Idx(), PurgeOps(records[i..])) == Exec(start, PurgeOps(records))
      {
        PurgeStep(Idx(), records[i..]);
        var (id, row) := records[i];
        if row.keywords != [] && id.event != "" {
          RemovePostingRefs(id, row.ts, row.keywords);
        }
        rows := rows - {id};
        assert records[i..][1..] == records[i + 1..];
        i := i + 1;
      }
    }

    /** The purge, then the inserts. */
    method ReplaceSession(slot: Slot, events: seq<Event>) returns (ghost found: seq<(RowId, Row)>)
      modifies `rows, `postings
      ensures Enumerates(old(Idx()), slot, found)
      ensures Idx() == Exec(old(Idx()), AddSessionOps(old(Idx()), slot, found, PreparedAll(events)))
    {
      hide Enumerates, InsertOps, PurgeOps, InsertAllOps, Exec, Tokenize;
      ghost var start := Idx();
      found := PurgeSessionMemories(slot);
      ghost var purged := Idx();
      ghost var all := PreparedAll(events);
      ExecSplits(start, PurgeOps(found), InsertAllOps(purged, slot, all, false));
      var i := 0;
      while i < |events|
        invariant 0 <= i <= |events|
        invariant Exec(Idx(), InsertAllOps(Idx(), slot, all[i..], false)) == Exec(purged, InsertAllOps(purged, slot, all, false))
      {
        InsertStep(Idx(), slot, all[i..], false);
        if events[i].text != "" {
          UpsertMemory(slot, events[i]);
        }
        assert all[i..][1..] == all[i + 1..];
        i := i + 1;
      }
      assert all[i..] == [];
      NothingToInsert(Idx(), slot, false);
    }

    /** The inserts of what is not stored yet. */
    method AddMissing(slot: Slot, events: seq<Event>)
      modifies `rows, `postings
      ensures Idx() == Exec(old(Idx()), AddEventsOps(old(Idx()), slot, PreparedAll(events)))
    {
      hide InsertOps, InsertAllOps, Exec, Tokenize;
      ghost var start := Idx();
      ghost var all := PreparedAll(events);
      var i := 0;
      while i < |events|
        invariant 0 <= i <= |events|
        invariant Exec(Idx(), InsertAllOps(Idx(), slot, all[i..], true)) == Exec(start, InsertAllOps(start, slot, all, true))
      {
        InsertStep(Idx(), slot, all[i..], true);
        if events[i].text != "" && RowIdOf(slot, Prepared(events[i])) !in rows {
          UpsertMemory(slot, events[i]);
        }
        assert all[i..][1..] == all[i + 1..];
        i := i + 1;
      }
      assert all[i..] == [];
      NothingToInsert(Idx(), slot, true);
    }

    /** Replace the session's memories. */
    method AddSessionToMemory(slot: Slot, events: seq<Event>) returns (ghost found: seq<(RowId, Row)>)
      modifies this
      ensures Enumerates(old(Idx()), slot, found)
      ensures Idx() == Exec(old(Idx()), AddSessionOps(old(Idx()), slot, found, PreparedAll(events)))
      ensures ProperIds(events) ==> SessionReplaced(old(stored), stored, slot.app, slot.user, slot.session, events)
      ensures old(Faithful()) && ProperIds(events) && |OfUser(old(stored), slot.app, slot.user)| + |events| <= 2048 ==> Faithful()
    {
      hide Enumerates, AddSessionOps, Exec, Agree, Represents, ProperIds, SessionReplaced, OfUser, PreparedAll, AfterAddSession;
      found := ReplaceSession(slot, events);
      stored := AfterAddSession(stored, slot.app, slot.user, slot.session, events);
      if ProperIds(events) {
        AddSessionMeaning(old(stored), slot.app, slot.user, slot.session, events);
        if old(Faithful()) && |OfUser(old(stored), slot.app, slot.user)| + |events| <= 2048 {
          SessionAdded(old(Idx()), old(stored), slot, found, events);
        }
      }
    }

    /** Add events that are not stored yet; no session id stands for the unknown session. */
    method AddEventsToMemory(app: string, user: string, session: string, events: seq<Event>)
      modifies this
      ensures var slot := Slot(app, user, if session == "" then UNKNOWN_SESSION_ID else session);
              Idx() == Exec(old(Idx()), AddEventsOps(old(Idx()), slot, PreparedAll(events)))
      ensures ProperIds(events)
              ==> EventsAdded(old(stored), stored, app, user, if session == "" then "__unknown_session_id__" else session, events)
      ensures old(Faithful()) && ProperIds(events) && |OfUser(old(stored), app, user)| + |events| <= 2048 ==> Faithful()
    {
      hide AddEventsOps, Exec, Agree, Represents, ProperIds, EventsAdded, OfUser, PreparedAll, AfterAddEvents;
      var slot := Slot(app, user, if session == "" then UNKNOWN_SESSION_ID else session);
      AddMissing(slot, events);
      stored := AfterAddEvents(stored, app, user, slot.session, events);
      if ProperIds(events) {
        AddEventsMeaning(old(stored), app, user, slot.session, events);
        if old(Faithful()) && |OfUser(old(stored), app, user)| + |events| <= 2048 {
          EventsAddedTo(old(Idx()), old(stored), slot, events);
        }
      }
    }

    /** Reads the query's lists in turn until the candidate cap is reached. */
    method GatherCandidates(app: string, user: string, tokens: seq<string>) returns (c: Candidates)
      ensures Gathered(Idx(), app, user, tokens, c)
    {
      c := Candidates([], map[]);
      var i := 0;
      while i < |tokens|
        invariant 0 <= i <= |tokens|
        invariant Gathered(Idx(), app, user, tokens[..i], c) && |c.order| < MAX_SEARCH_CANDIDATES
      {
        var list := ListId(app, user, tokens[i]);
        var refs := if list in postings then postings[list] else [];
        c := ReadRefs(app, user, tokens, i, refs, c);
        i := i + 1;
        if |c.order| >= MAX_SEARCH_CANDIDATES {
          WidenLists(Idx(), app, user, tokens, i, c);
          return;
        }
      }
      assert tokens[..i] == tokens;
    }

    method ReadRefs(app: string, user: string, tokens: seq<string>, n: nat, refs: seq<Ref>, before: Candidates) returns (c: Candidates)
      requires n < |tokens| && refs == Posts(Idx(), ListId(app, user, tokens[n]))
      requires Gathered(Idx(), app, user, tokens[..n], before) && |before.order| < MAX_SEARCH_CANDIDATES
      ensures Gathered(Idx(), app, user, tokens[..n + 1], c)
    {
      hide ListedUnder, Covers, Posts;
      c := before;
      ghost var ix, less, next := Idx(), tokens[..n], tokens[..n + 1];
      NextList(ix, app, user, tokens, n);
      var j := 0;
      while j < |refs|
        invariant 0 <= j <= |refs|
        invariant Tidy(c) && FromLists(ix, app, user, next, c) && |c.order| < MAX_SEARCH_CANDIDATES
        invariant forall ref :: ListedUnder(ix, app, user, less, ref) || ref in refs[..j] ==> Covers(c, ref)
      {
        var ref := refs[j];
        assert ref in Posts(ix, ListId(app, user, tokens[n]));
        TakeKeeps(ix, app, user, next, c, ref);
        if ref.event != "" && ref.session != "" {
          var seen := ref.event in c.found;
          if !seen || ref.ts > c.found[ref.event].1 {
            c := Candidates(if seen then c.order else c.order + [ref.event], c.found[ref.event := (ref.session, ref.ts)]);
          }
        }
        j := j + 1;
        if |c.order| >= MAX_SEARCH_CANDIDATES {
          return;
        }
      }
      assert refs[..j] == refs;
    }

    /** Rows that are gone or share no token are passed over. */
    method ScoreCandidates(app: string, user: string, tokens: seq<string>, c: Candidates) returns (scored: seq<Hit>)
      requires Tidy(c)
      ensures scored == ScoreAll(Idx(), app, user, tokens, c, |c.order|)
      ensures forall i :: 0 <= i < |scored| ==> Meets(Idx(), app, user, tokens, scored[i].id) && scored[i].row == rows[scored[i].id]
    {
      hide Overlap, ScoreAll;
      scored := [];
      NothingScored(Idx(), app, user, tokens, c);
      var i := 0;
      while i < |c.order|
        invariant 0 <= i <= |c.order|
        invariant scored == ScoreAll(Idx(), app, user, tokens, c, i)
        invariant forall k :: 0 <= k < |scored| ==> Meets(Idx(), app, user, tokens, scored[k].id) && scored[k].row == rows[scored[k].id]
      {
        ScoreStep(Idx(), app, user, tokens, c, i);
        var e := c.order[i];
        var (session, ts) := c.found[e];
        var id := RowId(app, user, session, e);
        if id in rows {
          var overlap := Overlap(rows[id].keywords, tokens);
          if overlap > 0 {
            scored := scored + [Hit(overlap, ts, id, rows[id])];
          }
        }
        i := i + 1;
      }
    }

    /** The hits of a query, best first. */
    method SearchMemory(app: string, user: string, query: string) returns (hits: seq<Hit>)
      ensures |hits| <= topK
      ensures forall i, j :: 0 <= i < j < |hits|
                ==> hits[i].overlap > hits[j].overlap || (hits[i].overlap == hits[j].overlap && hits[i].ts >= hits[j].ts)
      ensures forall i :: 0 <= i < |hits| ==> Meets(Idx(), app, user, Tokenize(query), hits[i].id) && hits[i].row == rows[hits[i].id]
      ensures Indexed(Idx()) && SessionsNamed(Idx(), app, user) && Findable(Idx(), app, user, Tokenize(query))
              ==> TopK(Idx(), app, user, Tokenize(query), hits, topK)
      ensures Faithful() && WithinReach(stored, app, user, query) ==> TopEvents(stored, app, user, query, hits, topK)
    {
      hide *;
      var tokens := Tokenize(query);
      var c := GatherCandidates(app, user, tokens);
      var scored := ScoreCandidates(app, user, tokens, c);
      var ranked := Ranked(scored);
      RankedMeaning(scored);
      hits := if |ranked| <= topK then ranked else ranked[..topK];
      SortedPrefix(ranked, |hits|);
      assert forall i :: 0 <= i < |hits| ==> hits[i] in multiset(scored);
      if Indexed(Idx()) && SessionsNamed(Idx(), app, user) && Findable(Idx(), app, user, tokens) {
        SearchAgreesWithScan(Idx(), app, user, tokens, c, topK);
      }
      SortedInNumbers(hits);
      if Faithful() && WithinReach(stored, app, user, query) {
        FaithfulIs(this);
        AgreeIsIndexed(Idx());
        ReachIsFindable(Idx(), stored, app, user, query);
        TopIsTopEvents(Idx(), stored, app, user, query, hits, topK);
      }
    }
  }

  lemma FaithfulIs(service: Service)
    requires service.Faithful()
    ensures Agree(service.Idx()) && Represents(service.Idx().rows, service.stored)
  {
    hide Agree, Represents;
  }

  lemma SortedInNumbers(hits: seq<Hit>)
    requires Sorted(hits)
    ensures forall i, j :: 0 <= i < j < |hits|
              ==> hits[i].overlap > hits[j].overlap || (hits[i].overlap == hits[j].overlap && hits[i].ts >= hits[j].ts)
  {
    forall i, j | 0 <= i < j < |hits|
      ensures hits[i].overlap > hits[j].overlap || (hits[i].overlap == hits[j].overlap && hits[i].ts >= hits[j].ts)
    {
      assert Before(hits[i], hits[j]);
    }
  }

  lemma SortedPrefix(hits: seq<Hit>, n: nat)
    requires Sorted(hits) && n <= |hits|
    ensures Sorted(hits[..n])
  {
  }

  /** The candidates after one ref. */
  function Take(c: Candidates, ref: Ref): Candidates {
    if Usable(ref) && (ref.event !in c.found || ref.ts > c.found[ref.event].1)
    then Candidates(if ref.event in c.found then c.order else c.order + [ref.event], c.found[ref.event := (ref.session, ref.ts)])
    else c
  }

  lemma TakeKeeps(ix: Index, app: string, user: string, tokens: seq<string>, c: Candidates, ref: Ref)
    requires Tidy(c) && FromLists(ix, app, user, tokens, c) && |c.order| < MAX_SEARCH_CANDIDATES && ListedUnder(ix, app, user, tokens, ref)
    ensures Tidy(Take(c, ref)) && FromLists(ix, app, user, tokens, Take(c, ref))
    ensures Covers(Take(c, ref), ref) && forall r :: Covers(c, r) ==> Covers(Take(c, ref), r)
  {
    hide ListedUnder;
  }

  lemma AppendTwoSteps(ix: Index, list: ListId, ref: Ref)
    requires |Posts(ix, list)| + 1 > MAX_POSTING_LIST_SIZE
    ensures Exec(ix, AppendOps(ix, list, ref)) == Do(Do(ix, AppendRef(list, ref)), TrimFront(list, |Posts(ix, list)| + 1 - MAX_POSTING_LIST_SIZE))
  {
    var ops := AppendOps(ix, list, ref);
    assert ops[1..] == [ops[1]] && ops[1..][1..] == [];
    assert Exec(Do(ix, ops[0]), ops[1..]) == Exec(Do(Do(ix, ops[0]), ops[1]), []);
  }

  lemma InsertIsPutThenRefs(ix: Index, id: RowId, row: Row)
    ensures var put := Do(ix, PutRow(id, row)); Exec(ix, InsertOps(ix, id, row)) == Exec(put, RefsOps(put, id, RefOf(id, row), row.keywords))
  {
    var put := Do(ix, PutRow(id, row));
    assert InsertOps(ix, id, row)[1..] == RefsOps(put, id, RefOf(id, row), row.keywords);
  }

  lemma RefsStep(ix: Index, id: RowId, ref: Ref, tokens: seq<string>)
    requires tokens != []
    ensures var next := Exec(ix, AppendOps(ix, ListOf(id, tokens[0]), ref));
            Exec(ix, RefsOps(ix, id, ref, tokens)) == Exec(next, RefsOps(next, id, ref, tokens[1..]))
  {
    var first := AppendOps(ix, ListOf(id, tokens[0]), ref);
    ExecSplits(ix, first, RefsOps(Exec(ix, first), id, ref, tokens[1..]));
  }

  lemma RemoveStep(ix: Index, id: RowId, ref: Ref, tokens: seq<string>)
    requires tokens != []
    ensures Exec(ix, RemoveRefsOps(id, ref, tokens)) == Exec(Do(ix, RemoveRefs(ListOf(id, tokens[0]), ref)), RemoveRefsOps(id, ref, tokens[1..]))
  {
    assert RemoveRefsOps(id, ref, tokens)[1..] == RemoveRefsOps(id, ref, tokens[1..]);
  }

  lemma PurgeStep(ix: Index, found: seq<(RowId, Row)>)
    requires found != []
    ensures var id, row := found[0].0, found[0].1;
            var bare := if id.event != "" then Exec(ix, RemoveRefsOps(id, RefOf(id, row), row.keywords)) else ix;
            && (row.keywords == [] ==> bare == ix)
            && Exec(ix, PurgeOps(found)) == Exec(Do(bare, RemoveRow(id)), PurgeOps(found[1..]))
  {
    var id, row := found[0].0, found[0].1;
    var strip := if id.event != "" then RemoveRefsOps(id, RefOf(id, row), row.keywords) else [];
    ExecSplits(ix, PurgeRowOps(id, row), PurgeOps(found[1..]));
    ExecSplits(ix, strip, [RemoveRow(id)]);
    assert Exec(Exec(ix, strip), [RemoveRow(id)]) == Exec(Do(Exec(ix, strip), RemoveRow(id)), []);
  }

  lemma NothingScored(ix: Index, app: string, user: string, query: seq<string>, c: Candidates)
    requires Tidy(c)
    ensures ScoreAll(ix, app, user, query, c, 0) == []
  {
  }

  lemma ScoreStep(ix: Index, app: string, user: string, query: seq<string>, c: Candidates, n: nat)
    requires Tidy(c) && n < |c.order|
    ensures var id := IdOf(app, user, c, c.order[n]);
            ScoreAll(ix, app, user, query, c, n + 1) ==
            ScoreAll(ix, app, user, query, c, n) +
            if id in ix.rows && Overlap(ix.rows[id].keywords, query) > 0
            then [Hit(Overlap(ix.rows[id].keywords, query), c.found[c.order[n]].1, id, ix.rows[id])] else []
  {
    hide Overlap;
  }

  lemma NothingToInsert(ix: Index, slot: Slot, skipStored: bool)
    ensures Exec(ix, InsertAllOps(ix, slot, [], skipStored)) == ix
  {
  }

  lemma InsertStep(ix: Index, slot: Slot, events: seq<MemoryEvent>, skipStored: bool)
    requires events != []
    ensures var id := RowIdOf(slot, events[0]);
            var next := if events[0].text == "" || (skipStored && id in ix.rows) then ix else Exec(ix, InsertOps(ix, id, RowFor(events[0])));
            Exec(ix, InsertAllOps(ix, slot, events, skipStored)) == Exec(next, InsertAllOps(next, slot, events[1..], skipStored))
  {
    var id := RowIdOf(slot, events[0]);
    if !(events[0].text == "" || (skipStored && id in ix.rows)) {
      var first := InsertOps(ix, id, RowFor(events[0]));
      ExecSplits(ix, first, InsertAllOps(Exec(ix, first), slot, events[1..], skipStored));
    }
  }

  lemma NextList(ix: Index, app: string, user: string, tokens: seq<string>, n: nat)
    requires n < |tokens|
    ensures forall ref :: ListedUnder(ix, app, user, tokens[..n + 1], ref)
                          <==> ListedUnder(ix, app, user, tokens[..n], ref) || ref in Posts(ix, ListId(app, user, tokens[n]))
  {
    forall ref ensures ListedUnder(ix, app, user, tokens[..n + 1], ref)
                       <==> ListedUnder(ix, app, user, tokens[..n], ref) || ref in Posts(ix, ListId(app, user, tokens[n]))
    {
      var more, less := tokens[..n + 1], tokens[..n];
      assert forall i :: 0 <= i < n ==> more[i] == less[i];
      assert more[n] == tokens[n];
    }
  }

  lemma WidenLists(ix: Index, app: string, user: string, tokens: seq<string>, n: nat, c: Candidates)
    requires n <= |tokens| && Gathered(ix, app, user, tokens[..n], c) && |c.order| >= MAX_SEARCH_CANDIDATES
    ensures Gathered(ix, app, user, tokens, c)
  {
    forall ref | ListedUnder(ix, app, user, tokens[..n], ref) ensures ListedUnder(ix, app, user, tokens, ref) {
      var i :| 0 <= i < n && ref in Posts(ix, ListId(app, user, tokens[..n][i]));
      assert tokens[..n][i] == tokens[i];
    }
  }

  /**
   * End to end: whatever history of calls and crashes built the index from nothing, once every
   * session that was cut short has been added again, and as long as nothing was trimmed, a search
   * finds what a scan of the rows would.
   */
  lemma SearchAfterAnyHistory(attempts: seq<Attempt>, app: string, user: string, query: seq<string>, c: Candidates, k: nat)
    requires HistoryOk(EMPTY_INDEX, attempts) && NeverTrims(EMPTY_INDEX, attempts) && Broken(EMPTY_INDEX, {}, attempts) == {}
    requires var ix := After(EMPTY_INDEX, attempts);
             SessionsNamed(ix, app, user) && Gathered(ix, app, user, query, c) && Findable(ix, app, user, query)
    ensures var ix := After(EMPTY_INDEX, attempts);
            var ranked := Ranked(ScoreAll(ix, app, user, query, c, |c.order|));
            TopK(ix, app, user, query, if |ranked| <= k then ranked else ranked[..k], k)
  {
    hide *;
    EmptyAgrees();
    HistoriesAgree(EMPTY_INDEX, {}, attempts);
    AgreeIffNoneBroken(After(EMPTY_INDEX, attempts));
    AgreeIsIndexed(After(EMPTY_INDEX, attempts));
    SearchAgreesWithScan(After(EMPTY_INDEX, attempts), app, user, query, c, k);
  }
}
