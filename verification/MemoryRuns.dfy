/** Whole calls, whole runs and crashes of the memory index. */
module MemoryRuns {
  import opened MemoryIndex
  import opened MemoryAgreement

  predicate Searchable(e: MemoryEvent) {
    e.text != ""
  }

  /** Event ids name events, and no event lists a keyword twice. */
  predicate WellFormed(events: seq<MemoryEvent>) {
    && NamedIds(events)
    && forall e :: e in events ==> Distinct(e.keywords)
  }

  predicate DistinctIds(events: seq<MemoryEvent>) {
    forall i, j :: 0 <= i < j < |events| && Searchable(events[i]) && Searchable(events[j]) ==> events[i].id != events[j].id
  }

  /** `add_events_to_memory` looks before it inserts; `add_session_to_memory` relies on its input. */
  predicate Insertable(ix: Index, slot: Slot, events: seq<MemoryEvent>, skipStored: bool) {
    skipStored || (DistinctIds(events) && forall e :: e in events && Searchable(e) ==> RowIdOf(slot, e) !in ix.rows)
  }

  /** The rows of a batch of events; of two with the same id the first. */
  function RowsOf(slot: Slot, events: seq<MemoryEvent>): map<RowId, Row> {
    if events == [] then map[]
    else if Searchable(events[0]) then RowsOf(slot, events[1..])[RowIdOf(slot, events[0]) := RowFor(events[0])]
    else RowsOf(slot, events[1..])
  }

  lemma {:induction false} RowsOfMeaning(slot: Slot, events: seq<MemoryEvent>)
    requires DistinctIds(events)
    ensures forall e :: e in events && Searchable(e) ==> RowIdOf(slot, e) in RowsOf(slot, events) && RowsOf(slot, events)[RowIdOf(slot, e)] == RowFor(e)
    ensures forall id :: id in RowsOf(slot, events) ==> SlotOf(id) == slot && exists e :: e in events && Searchable(e) && e.id == id.event
  {
    if events != [] {
      RowsOfMeaning(slot, events[1..]);
      assert events == [events[0]] + events[1..];
    }
  }

  // ---- trims -----------------------------------------------------------------------------------

  lemma {:induction false} RefsTrimIff(ix: Index, id: RowId, ref: Ref, tokens: seq<string>)
    requires Distinct(tokens)
    ensures NoTrim(RefsOps(ix, id, ref, tokens))
            <==> forall t :: t in tokens ==> |Posts(ix, ListOf(id, t))| < MAX_POSTING_LIST_SIZE
    decreases |tokens|
  {
    if tokens != [] {
      var list := ListOf(id, tokens[0]);
      var first := AppendOps(ix, list, ref);
      var rest := RefsOps(Exec(ix, first), id, ref, tokens[1..]);
      AppendEffect(ix, list, ref);
      RefsTrimIff(Exec(ix, first), id, ref, tokens[1..]);
      assert tokens == [tokens[0]] + tokens[1..];
      assert tokens[0] !in tokens[1..];
      NoTrimConcat(first, rest);
      assert NoTrim(first) <==> |Posts(ix, list)| < MAX_POSTING_LIST_SIZE by {
        assert |first| > 1 ==> first[1].TrimFront?;
      }
    }
  }

  lemma NoTrimConcat(a: seq<Op>, b: seq<Op>)
    ensures NoTrim(a + b) <==> NoTrim(a) && NoTrim(b)
  {
    if NoTrim(a + b) {
      forall i | 0 <= i < |a| ensures !a[i].TrimFront? { assert (a + b)[i] == a[i]; }
      forall i | 0 <= i < |b| ensures !b[i].TrimFront? { assert (a + b)[|a| + i] == b[i]; }
    }
  }

  lemma InsertTrimIff(ix: Index, id: RowId, row: Row)
    requires Distinct(row.keywords)
    ensures NoTrim(InsertOps(ix, id, row))
            <==> forall t :: t in row.keywords ==> |Posts(ix, ListOf(id, t))| < MAX_POSTING_LIST_SIZE
  {
    var put := Do(ix, PutRow(id, row));
    NoTrimConcat([PutRow(id, row)], RefsOps(put, id, RefOf(id, row), row.keywords));
    RefsTrimIff(put, id, RefOf(id, row), row.keywords);
    assert forall l :: Posts(put, l) == Posts(ix, l);
  }

  /** How many of the events will be stored. */
  function Searchables(events: seq<MemoryEvent>): nat {
    if events == [] then 0 else (if Searchable(events[0]) then 1 else 0) + Searchables(events[1..])
  }

  /** Room for one more ref per searchable event in every list of the user is enough. */
  lemma {:induction false} RoomyNeverTrims(ix: Index, slot: Slot, events: seq<MemoryEvent>, skipStored: bool)
    requires WellFormed(events)
    requires forall t :: |Posts(ix, ListId(slot.app, slot.user, t))| + Searchables(events) <= 2048
    ensures NoTrim(InsertAllOps(ix, slot, events, skipStored))
    decreases |events|
  {
    hide InsertOps;
    if events != [] {
      var e := events[0];
      var id := RowIdOf(slot, e);
      assert e in events;
      if !Searchable(e) || (skipStored && id in ix.rows) {
        RoomyNeverTrims(ix, slot, events[1..], skipStored);
      } else {
        var first := InsertOps(ix, id, RowFor(e));
        InsertTrimIff(ix, id, RowFor(e));
        InsertEffect(ix, id, RowFor(e));
        RoomyNeverTrims(Exec(ix, first), slot, events[1..], skipStored);
        NoTrimConcat(first, InsertAllOps(Exec(ix, first), slot, events[1..], skipStored));
      }
    }
  }

  // ---- the inserting loop --------------------------------------------------------------------

  lemma {:induction false} InsertAllRows(ix: Index, slot: Slot, events: seq<MemoryEvent>, skipStored: bool)
    requires WellFormed(events) && Insertable(ix, slot, events, skipStored)
    ensures Exec(ix, InsertAllOps(ix, slot, events, skipStored)).rows == RowsOf(slot, events) + ix.rows
    decreases |events|
  {
    hide InsertOps, Exec, Posts, Appended, Distinct;
    NothingToDo(ix);
    if events != [] {
      var e := events[0];
      var id := RowIdOf(slot, e);
      assert e in events;
      if !Searchable(e) || (skipStored && id in ix.rows) {
        InsertAllRows(ix, slot, events[1..], skipStored);
      } else {
        var first := InsertOps(ix, id, RowFor(e));
        InsertEffect(ix, id, RowFor(e));
        InsertAllRows(Exec(ix, first), slot, events[1..], skipStored);
        ExecSplits(ix, first, InsertAllOps(Exec(ix, first), slot, events[1..], skipStored));
      }
    }
  }

  lemma {:induction false} InsertAllIsSafe(ix: Index, slot: Slot, events: seq<MemoryEvent>, skipStored: bool)
    requires WellFormed(events) && Insertable(ix, slot, events, skipStored)
    ensures SafeProgram(ix, InsertAllOps(ix, slot, events, skipStored))
    decreases |events|
  {
    hide InsertOps, SafeProgram;
    if events == [] {
      EmptyIsSafe(ix);
    } else {
      var e := events[0];
      var id := RowIdOf(slot, e);
      assert e in events;
      if !Searchable(e) || (skipStored && id in ix.rows) {
        InsertAllIsSafe(ix, slot, events[1..], skipStored);
      } else {
        var first := InsertOps(ix, id, RowFor(e));
        InsertEffect(ix, id, RowFor(e));
        InsertIsSafe(ix, id, RowFor(e));
        InsertAllIsSafe(Exec(ix, first), slot, events[1..], skipStored);
        SafeProgramsConcat(ix, first, InsertAllOps(Exec(ix, first), slot, events[1..], skipStored));
      }
    }
  }

  lemma {:induction false} InsertAllAgrees(ix: Index, broken: set<Slot>, slot: Slot, events: seq<MemoryEvent>, skipStored: bool)
    requires AgreeExcept(ix, broken) && WellFormed(events) && Insertable(ix, slot, events, skipStored)
    requires NoTrim(InsertAllOps(ix, slot, events, skipStored))
    ensures AgreeExcept(Exec(ix, InsertAllOps(ix, slot, events, skipStored)), broken)
    decreases |events|
  {
    hide InsertOps, AgreeExcept;
    if events != [] {
      var e := events[0];
      var id := RowIdOf(slot, e);
      assert e in events;
      if !Searchable(e) || (skipStored && id in ix.rows) {
        InsertAllAgrees(ix, broken, slot, events[1..], skipStored);
      } else {
        var first := InsertOps(ix, id, RowFor(e));
        NoTrimConcat(first, InsertAllOps(Exec(ix, first), slot, events[1..], skipStored));
        InsertTrimIff(ix, id, RowFor(e));
        InsertEffect(ix, id, RowFor(e));
        RoomyInsertAgrees(ix, broken, id, RowFor(e), Exec(ix, first));
        InsertAllAgrees(Exec(ix, first), broken, slot, events[1..], skipStored);
        ExecSplits(ix, first, InsertAllOps(Exec(ix, first), slot, events[1..], skipStored));
      }
    }
  }

  // ---- one call ----------------------------------------------------------------------------------

  datatype Call =
    | AddSession(slot: Slot, found: seq<(RowId, Row)>, events: seq<MemoryEvent>)
    | AddEvents(slot: Slot, events: seq<MemoryEvent>)

  function CallOps(ix: Index, call: Call): seq<Op> {
    match call
    case AddSession(slot, found, events) => AddSessionOps(ix, slot, found, events)
    case AddEvents(slot, events) => AddEventsOps(ix, slot, events)
  }

  /** The query answers truthfully; ids are non-empty, and distinct within a session. */
  ghost predicate CallOk(ix: Index, call: Call) {
    && WellFormed(call.events)
    && (call.AddSession? ==> DistinctIds(call.events) && Enumerates(ix, call.slot, call.found))
  }

  lemma CallIsSafe(ix: Index, call: Call)
    requires Sound(ix) && CallOk(ix, call)
    ensures SafeProgram(ix, CallOps(ix, call))
  {
    hide SafeProgram;
    match call
    case AddSession(slot, found, events) =>
      var purged := Exec(ix, PurgeOps(found));
      PurgeIsSafe(ix, found);
      forall e | e in events ensures RowIdOf(slot, e) !in purged.rows {
        if RowIdOf(slot, e) in ix.rows {
          var i :| 0 <= i < |found| && found[i].0 == RowIdOf(slot, e);
        }
      }
      InsertAllIsSafe(purged, slot, events, false);
      SafeProgramsConcat(ix, PurgeOps(found), InsertAllOps(purged, slot, events, false));
    case AddEvents(slot, events) => InsertAllIsSafe(ix, slot, events, true);
  }

  /**
   * After every single write of either call, trims included, each ref points to an existing row
   * that has the token.
   */
  lemma CrashKeepsIndexSound(ix: Index, call: Call, n: nat)
    requires Sound(ix) && CallOk(ix, call) && n <= |CallOps(ix, call)|
    ensures Sound(Exec(ix, CallOps(ix, call)[..n]))
  {
    CallIsSafe(ix, call);
    SoundAtEveryCrash(ix, CallOps(ix, call), n);
  }

  lemma CallWithin(ix: Index, call: Call)
    requires CallOk(ix, call) && NoTrim(CallOps(ix, call))
    ensures AllWithin(CallOps(ix, call), call.slot)
  {
    match call
    case AddSession(slot, found, events) =>
      PurgeTargets(found, slot);
      InsertAllTargets(Exec(ix, PurgeOps(found)), slot, events, false);
    case AddEvents(slot, events) => InsertAllTargets(ix, slot, events, true);
  }

  lemma CallRows(ix: Index, call: Call)
    requires Sound(ix) && AllNamed(ix) && CallOk(ix, call)
    ensures Exec(ix, CallOps(ix, call)).rows
            == if call.AddSession? then RowsOf(call.slot, call.events) + map id | id in ix.rows && SlotOf(id) != call.slot :: ix.rows[id]
               else RowsOf(call.slot, call.events) + ix.rows
  {
    match call
    case AddSession(slot, found, events) =>
      var purged := Exec(ix, PurgeOps(found));
      PurgeClears(ix, slot, found);
      InsertAllRows(purged, slot, events, false);
      ExecSplits(ix, PurgeOps(found), InsertAllOps(purged, slot, events, false));
      assert purged.rows == map id | id in ix.rows && SlotOf(id) != slot :: ix.rows[id];
    case AddEvents(slot, events) => InsertAllRows(ix, slot, events, true);
  }

  /** A completed call breaks nothing, and adding a session mends it. */
  lemma CallAgreesExcept(ix: Index, broken: set<Slot>, call: Call)
    requires AgreeExcept(ix, broken) && CallOk(ix, call) && NoTrim(CallOps(ix, call))
    ensures AgreeExcept(Exec(ix, CallOps(ix, call)), if call.AddSession? then broken - {call.slot} else broken)
  {
    hide Sound, AllNamed;
    match call
    case AddSession(slot, found, events) =>
      var purged := Exec(ix, PurgeOps(found));
      PurgeClears(ix, slot, found);
      PurgeMends(ix, broken, slot, purged);
      hide AgreeExcept;
      NoTrimConcat(PurgeOps(found), InsertAllOps(purged, slot, events, false));
      InsertAllAgrees(purged, broken - {slot}, slot, events, false);
      ExecSplits(ix, PurgeOps(found), InsertAllOps(purged, slot, events, false));
    case AddEvents(slot, events) => InsertAllAgrees(ix, broken, slot, events, true);
  }

  lemma CallAgrees(ix: Index, call: Call)
    requires Agree(ix) && CallOk(ix, call) && NoTrim(CallOps(ix, call))
    ensures Agree(Exec(ix, CallOps(ix, call)))
  {
    hide Agree, AgreeExcept;
    AgreeIffNoneBroken(ix);
    CallAgreesExcept(ix, {}, call);
    AgreeIffNoneBroken(Exec(ix, CallOps(ix, call)));
    assert {} - {call.slot} == {};
  }

  lemma NamedWhenAgree(ix: Index)
    requires Agree(ix)
    ensures Sound(ix) && AllNamed(ix)
  {
    AgreeIsSound(ix);
  }

  /**
   * While no list is trimmed a call keeps the index in full agreement with the rows; re-adding a
   * session replaces its rows, and every other slot's rows and refs stay, in place.
   */
  lemma CallKeepsAgreement(ix: Index, call: Call)
    requires Agree(ix) && CallOk(ix, call) && NoTrim(CallOps(ix, call))
    ensures var after := Exec(ix, CallOps(ix, call));
            && Agree(after)
            && after.rows == (if call.AddSession?
                              then RowsOf(call.slot, call.events) + map id | id in ix.rows && SlotOf(id) != call.slot :: ix.rows[id]
                              else RowsOf(call.slot, call.events) + ix.rows)
            && forall list :: Elsewhere(after, call.slot, list) == Elsewhere(ix, call.slot, list)
  {
    hide Agree, Elsewhere, CallOk;
    NamedWhenAgree(ix);
    CallRows(ix, call);
    CallAgrees(ix, call);
    CallWithin(ix, call);
    ProgramKeepsOthers(ix, CallOps(ix, call), call.slot);
  }
}
