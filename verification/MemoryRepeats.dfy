/** Sessions in which an event id occurs more than once. */
module MemoryRepeats {
  import opened MemoryIndex
  import opened MemoryAgreement
  import opened MemoryRuns
  import opened MemorySearch

  /** Event j is the last searchable one with its id. */
  predicate IsLast(events: seq<MemoryEvent>, j: nat) {
    && j < |events| && Searchable(events[j])
    && forall k :: j < k < |events| && Searchable(events[k]) ==> events[k].id != events[j].id
  }

  /** The row of a later event with the same id has every keyword of the earlier one, at the same time. */
  predicate CoveredBy(e: MemoryEvent, last: MemoryEvent) {
    (forall t :: t in e.keywords ==> t in last.keywords) && (e.keywords != [] ==> e.ts == last.ts)
  }

  /** The condition on repeated ids: each event is covered by the last with its id. */
  ghost predicate LastCovers(events: seq<MemoryEvent>) {
    forall i: nat, j: nat :: i < |events| && Searchable(events[i]) && IsLast(events, j) && events[i].id == events[j].id
      ==> CoveredBy(events[i], events[j])
  }

  /** The rows of a batch of events; of two with the same id the last. */
  function LastRows(slot: Slot, events: seq<MemoryEvent>): map<RowId, Row> {
    if events == [] then map[]
    else (if Searchable(events[0]) then map[RowIdOf(slot, events[0]) := RowFor(events[0])] else map[]) + LastRows(slot, events[1..])
  }

  lemma {:induction false} LastRowsMeaning(slot: Slot, events: seq<MemoryEvent>, j: nat)
    requires j < |events| && Searchable(events[j])
    ensures RowIdOf(slot, events[j]) in LastRows(slot, events)
    ensures IsLast(events, j) ==> LastRows(slot, events)[RowIdOf(slot, events[j])] == RowFor(events[j])
  {
    var rest := events[1..];
    if j > 0 {
      assert rest[j - 1] == events[j];
      LastRowsMeaning(slot, rest, j - 1);
      if IsLast(events, j) {
        assert IsLast(rest, j - 1) by { assert forall k :: 0 <= k < |rest| ==> rest[k] == events[k + 1]; }
      }
    } else if IsLast(events, 0) {
      LastRowsKnown(slot, rest);
      assert forall k :: 0 <= k < |rest| ==> rest[k] == events[k + 1];
      assert RowIdOf(slot, events[0]) !in LastRows(slot, rest);
    }
  }

  lemma {:induction false} LastRowsKnown(slot: Slot, events: seq<MemoryEvent>)
    ensures forall id :: id in LastRows(slot, events)
              ==> SlotOf(id) == slot && exists k :: 0 <= k < |events| && Searchable(events[k]) && RowIdOf(slot, events[k]) == id
  {
    if events != [] {
      LastRowsKnown(slot, events[1..]);
      assert events == [events[0]] + events[1..];
    }
  }

  /** Every searchable event has a last one with its id. */
  lemma {:induction false} LastExists(events: seq<MemoryEvent>, i: nat) returns (j: nat)
    requires i < |events| && Searchable(events[i])
    ensures IsLast(events, j) && events[j].id == events[i].id
    decreases |events| - i
  {
    if k: nat :| i < k < |events| && Searchable(events[k]) && events[k].id == events[i].id {
      j := LastExists(events, k);
    } else {
      j := i;
    }
  }

  // ---- what inserting leaves, whatever the ids ------------------------------------------------------

  lemma PutThenRest(rows: map<RowId, Row>, id: RowId, row: Row, rest: map<RowId, Row>)
    ensures rows[id := row] + rest == rows + (map[id := row] + rest)
  {
  }

  lemma {:induction false} InsertAllLastRows(ix: Index, slot: Slot, events: seq<MemoryEvent>)
    requires WellFormed(events)
    ensures Exec(ix, InsertAllOps(ix, slot, events, false)).rows == ix.rows + LastRows(slot, events)
    decreases |events|
  {
    hide InsertOps, Exec, Posts, Appended, Distinct;
    NothingToDo(ix);
    if events == [] {
      assert ix.rows + map[] == ix.rows;
    } else {
      var e := events[0];
      var id := RowIdOf(slot, e);
      assert e in events;
      if !Searchable(e) {
        assert map[] + LastRows(slot, events[1..]) == LastRows(slot, events[1..]);
        InsertAllLastRows(ix, slot, events[1..]);
      } else {
        var first := InsertOps(ix, id, RowFor(e));
        InsertEffect(ix, id, RowFor(e));
        InsertAllLastRows(Exec(ix, first), slot, events[1..]);
        PutThenRest(ix.rows, id, RowFor(e), LastRows(slot, events[1..]));
        ExecSplits(ix, first, InsertAllOps(Exec(ix, first), slot, events[1..], false));
      }
    }
  }

  /** The ref is one that inserting this event appends to the list. */
  predicate AppendedBy(slot: Slot, e: MemoryEvent, list: ListId, ref: Ref) {
    && Searchable(e) && list.app == slot.app && list.user == slot.user && list.token in e.keywords
    && ref == RefOf(RowIdOf(slot, e), RowFor(e))
  }

  lemma {:induction false} InsertAllPosts(ix: Index, slot: Slot, events: seq<MemoryEvent>, list: ListId, ref: Ref)
    requires WellFormed(events) && NoTrim(InsertAllOps(ix, slot, events, false))
    ensures ref in Posts(Exec(ix, InsertAllOps(ix, slot, events, false)), list)
            <==> ref in Posts(ix, list) || exists i :: 0 <= i < |events| && AppendedBy(slot, events[i], list, ref)
    decreases |events|
  {
    hide InsertOps, Posts;
    if events != [] {
      var e := events[0];
      var id := RowIdOf(slot, e);
      assert e in events;
      assert events == [e] + events[1..];
      if !Searchable(e) {
        InsertAllPosts(ix, slot, events[1..], list, ref);
      } else {
        var first := InsertOps(ix, id, RowFor(e));
        InsertEffect(ix, id, RowFor(e));
        NoTrimConcat(first, InsertAllOps(Exec(ix, first), slot, events[1..], false));
        InsertTrimIff(ix, id, RowFor(e));
        assert list.app == slot.app && list.user == slot.user ==> list == ListOf(id, list.token);
        InsertAllPosts(Exec(ix, first), slot, events[1..], list, ref);
        ExecSplits(ix, first, InsertAllOps(Exec(ix, first), slot, events[1..], false));
      }
      ShiftedAppend(slot, events, list, ref);
    }
  }

  lemma ShiftedAppend(slot: Slot, events: seq<MemoryEvent>, list: ListId, ref: Ref)
    requires events != []
    ensures (exists i :: 0 <= i < |events| && AppendedBy(slot, events[i], list, ref))
            <==> AppendedBy(slot, events[0], list, ref) || exists i :: 0 <= i < |events[1..]| && AppendedBy(slot, events[1..][i], list, ref)
  {
    hide AppendedBy;
    if exists i :: 0 <= i < |events[1..]| && AppendedBy(slot, events[1..][i], list, ref) {
      var i :| 0 <= i < |events[1..]| && AppendedBy(slot, events[1..][i], list, ref);
      assert AppendedBy(slot, events[i + 1], list, ref);
    }
    if exists i :: 0 <= i < |events| && AppendedBy(slot, events[i], list, ref) {
      var i :| 0 <= i < |events| && AppendedBy(slot, events[i], list, ref);
      if i > 0 {
        assert events[1..][i - 1] == events[i];
      }
    }
  }

  // ---- the exact condition ----------------------------------------------------------------------------

  /**
   * Adding a session leaves every ref pointing to a row with its token if and only if, of events
   * with the same id, the last has the keywords of all and the timestamp of those that have any.
   * The condition is on the caller's events alone.
   */
  lemma AddSessionSoundIff(ix: Index, slot: Slot, found: seq<(RowId, Row)>, events: seq<MemoryEvent>)
    requires Sound(ix) && AllNamed(ix) && Enumerates(ix, slot, found) && WellFormed(events)
    requires NoTrim(AddSessionOps(ix, slot, found, events))
    ensures Sound(Exec(ix, AddSessionOps(ix, slot, found, events))) <==> LastCovers(events)
  {
    hide Enumerates, LastCovers, Sound;
    var purged := Exec(ix, PurgeOps(found));
    PurgeClears(ix, slot, found);
    NoTrimConcat(PurgeOps(found), InsertAllOps(purged, slot, events, false));
    ExecSplits(ix, PurgeOps(found), InsertAllOps(purged, slot, events, false));
    InsertIntoEmptySlotSoundIff(purged, slot, events);
  }

  lemma InsertIntoEmptySlotSoundIff(ix: Index, slot: Slot, events: seq<MemoryEvent>)
    requires Sound(ix) && AllNamed(ix) && WellFormed(events) && NoTrim(InsertAllOps(ix, slot, events, false))
    requires forall id :: id in ix.rows ==> SlotOf(id) != slot
    ensures Sound(Exec(ix, InsertAllOps(ix, slot, events, false))) <==> LastCovers(events)
  {
    hide LastCovers, Sound, InsertAllOps;
    var after := Exec(ix, InsertAllOps(ix, slot, events, false));
    InsertAllLastRows(ix, slot, events);
    if LastCovers(events) {
      forall list, ref | ref in Posts(after, list) && Names(ref) ensures Points(after, list, ref) {
        InsertAllPosts(ix, slot, events, list, ref);
        if i :| 0 <= i < |events| && AppendedBy(slot, events[i], list, ref) {
          CoveredRefPoints(ix, slot, events, i, list, ref, after);
        } else {
          OldRefPoints(ix, slot, events, list, ref, after);
        }
      }
      assert Sound(after) by { SoundMeans(after); }
    }
    if Sound(after) {
      forall i: nat, j: nat | i < |events| && Searchable(events[i]) && IsLast(events, j) && events[i].id == events[j].id
        ensures CoveredBy(events[i], events[j])
      {
        LastRowsMeaning(slot, events, j);
        forall t | t in events[i].keywords ensures t in events[j].keywords && events[i].ts == events[j].ts {
          var list, ref := ListId(slot.app, slot.user, t), RefOf(RowIdOf(slot, events[i]), RowFor(events[i]));
          assert AppendedBy(slot, events[i], list, ref);
          InsertAllPosts(ix, slot, events, list, ref);
          assert events[i] in events;
          SoundPoints(after, list, ref);
        }
        assert events[i].keywords != [] ==> events[i].keywords[0] in events[i].keywords;
      }
      assert LastCovers(events) by { LastCoversMeans(events); }
    }
  }

  lemma SoundMeans(ix: Index)
    requires forall list, ref :: ref in Posts(ix, list) && Names(ref) ==> Points(ix, list, ref)
    ensures Sound(ix)
  {
  }

  lemma SoundPoints(ix: Index, list: ListId, ref: Ref)
    requires Sound(ix) && ref in Posts(ix, list) && Names(ref)
    ensures Points(ix, list, ref)
  {
  }

  lemma LastCoversMeans(events: seq<MemoryEvent>)
    requires forall i: nat, j: nat :: i < |events| && Searchable(events[i]) && IsLast(events, j) && events[i].id == events[j].id
               ==> CoveredBy(events[i], events[j])
    ensures LastCovers(events)
  {
  }

  lemma CoveredRefPoints(ix: Index, slot: Slot, events: seq<MemoryEvent>, i: nat, list: ListId, ref: Ref, after: Index)
    requires LastCovers(events) && i < |events| && AppendedBy(slot, events[i], list, ref)
    requires after.rows == ix.rows + LastRows(slot, events)
    ensures Points(after, list, ref)
  {
    hide LastRows;
    var j := LastExists(events, i);
    LastRowsMeaning(slot, events, j);
    assert CoveredBy(events[i], events[j]);
    assert RowOf(list, ref) == RowIdOf(slot, events[j]);
  }

  lemma OldRefPoints(ix: Index, slot: Slot, events: seq<MemoryEvent>, list: ListId, ref: Ref, after: Index)
    requires Sound(ix) && ref in Posts(ix, list) && Names(ref)
    requires forall id :: id in ix.rows ==> SlotOf(id) != slot
    requires after.rows == ix.rows + LastRows(slot, events)
    ensures Points(after, list, ref)
  {
    hide LastRows;
    assert Points(ix, list, ref);
    LastRowsKnown(slot, events);
  }

  /** Under the same condition, and no other, the session stays fully searchable. */
  lemma AddSessionIndexedIff(ix: Index, slot: Slot, found: seq<(RowId, Row)>, events: seq<MemoryEvent>)
    requires Indexed(ix) && AllNamed(ix) && Enumerates(ix, slot, found) && WellFormed(events)
    requires NoTrim(AddSessionOps(ix, slot, found, events))
    ensures Indexed(Exec(ix, AddSessionOps(ix, slot, found, events))) <==> LastCovers(events)
  {
    hide Enumerates, LastCovers, Sound, AllNamed, Posts, LastRows;
    var purged := Exec(ix, PurgeOps(found));
    var after := Exec(purged, InsertAllOps(purged, slot, events, false));
    AddSessionSoundIff(ix, slot, found, events);
    PurgeClears(ix, slot, found);
    NoTrimConcat(PurgeOps(found), InsertAllOps(purged, slot, events, false));
    ExecSplits(ix, PurgeOps(found), InsertAllOps(purged, slot, events, false));
    InsertAllLastRows(purged, slot, events);
    LastRowsKnown(slot, events);
    forall id, t | id in after.rows && t in after.rows[id].keywords
      ensures RefOf(id, after.rows[id]) in Posts(after, ListOf(id, t))
    {
      InsertAllPosts(purged, slot, events, ListOf(id, t), RefOf(id, after.rows[id]));
      if id in LastRows(slot, events) {
        NewRowIsListed(slot, events, id, t);
      } else {
        assert RefOf(id, ix.rows[id]) in Posts(ix, ListOf(id, t));
        OtherRefStays(ix, purged, slot, ListOf(id, t), RefOf(id, ix.rows[id]));
      }
    }
    forall id | id in after.rows ensures id.event != "" {
      if id in LastRows(slot, events) {
        var k :| 0 <= k < |events| && Searchable(events[k]) && RowIdOf(slot, events[k]) == id;
        assert events[k] in events;
      }
    }
  }

  lemma OtherRefStays(ix: Index, purged: Index, slot: Slot, list: ListId, ref: Ref)
    requires Posts(purged, list) == Elsewhere(ix, slot, list) && ref in Posts(ix, list) && SlotOf(RowOf(list, ref)) != slot
    ensures ref in Posts(purged, list)
  {
    OthersCounts(Posts(ix, list), slot.session, ref);
    assert ref in multiset(Posts(purged, list));
  }

  lemma NewRowIsListed(slot: Slot, events: seq<MemoryEvent>, id: RowId, t: string)
    requires id in LastRows(slot, events) && t in LastRows(slot, events)[id].keywords
    ensures exists i :: 0 <= i < |events| && AppendedBy(slot, events[i], ListOf(id, t), RefOf(id, LastRows(slot, events)[id]))
  {
    LastRowsKnown(slot, events);
    var k :| 0 <= k < |events| && Searchable(events[k]) && RowIdOf(slot, events[k]) == id;
    var j := LastExists(events, k);
    LastRowsMeaning(slot, events, j);
    hide LastRows;
    assert RowIdOf(slot, events[j]) == id;
    assert AppendedBy(slot, events[j], ListOf(id, t), RefOf(id, LastRows(slot, events)[id]));
  }

  /** Distinct ids meet the condition. */
  lemma DistinctIdsCover(events: seq<MemoryEvent>)
    requires DistinctIds(events)
    ensures LastCovers(events)
  {
    forall i: nat, j: nat | i < |events| && Searchable(events[i]) && IsLast(events, j) && events[i].id == events[j].id
      ensures i == j
    {
    }
  }

  /** The condition can fail: a second event with the same id strands the refs of the first. */
  lemma RepeatedIdStrandsRefs()
    ensures var slot := Slot("a", "u", "s");
            var events := [MemoryEvent("e", 1, "cat", ["cat"]), MemoryEvent("e", 2, "dog", ["dog"])];
            WellFormed(events) && Enumerates(EMPTY_INDEX, slot, []) && !Sound(Exec(EMPTY_INDEX, AddSessionOps(EMPTY_INDEX, slot, [], events)))
  {
    var slot := Slot("a", "u", "s");
    var first, second := MemoryEvent("e", 1, "cat", ["cat"]), MemoryEvent("e", 2, "dog", ["dog"]);
    var id := RowIdOf(slot, first);
    var one := Exec(EMPTY_INDEX, InsertOps(EMPTY_INDEX, id, RowFor(first)));
    var two := Exec(one, InsertOps(one, id, RowFor(second)));
    InsertEffect(EMPTY_INDEX, id, RowFor(first));
    InsertEffect(one, id, RowFor(second));
    assert ListId("a", "u", "cat") == ListOf(id, "cat");
    assert Posts(one, ListOf(id, "cat")) == [Ref("e", "s", 1)];
    assert Posts(two, ListOf(id, "cat")) == [Ref("e", "s", 1)];
    assert Ref("e", "s", 1) in Posts(two, ListOf(id, "cat")) && !Points(two, ListOf(id, "cat"), Ref("e", "s", 1));
    assert !Sound(two);
    TwoInserts(EMPTY_INDEX, slot, first, second);
  }

  lemma TwoInserts(ix: Index, slot: Slot, first: MemoryEvent, second: MemoryEvent)
    requires Searchable(first) && Searchable(second)
    ensures var one := Exec(ix, InsertOps(ix, RowIdOf(slot, first), RowFor(first)));
            Exec(ix, AddSessionOps(ix, slot, [], [first, second])) == Exec(one, InsertOps(one, RowIdOf(slot, second), RowFor(second)))
  {
    hide InsertOps;
    var insert := InsertOps(ix, RowIdOf(slot, first), RowFor(first));
    var one := Exec(ix, insert);
    var again := InsertOps(one, RowIdOf(slot, second), RowFor(second));
    assert [first, second][1..] == [second] && [second][1..] == [];
    assert InsertAllOps(one, slot, [second], false) == again + InsertAllOps(Exec(one, again), slot, [], false) == again;
    assert InsertAllOps(ix, slot, [first, second], false) == insert + again;
    ExecSplits(ix, insert, again);
    assert Exec(ix, []) == ix;
    assert AddSessionOps(ix, slot, [], [first, second]) == [] + (insert + again) == insert + again;
  }
}
