/** Histories of calls, some of them cut short by a crash, and recovery from them. */
module MemoryHistory {
  import opened MemoryIndex
  import opened MemoryAgreement
  import opened MemoryRuns

  /** A call of which the first `writes` single-record writes took effect; all of them, or a crash. */
  datatype Attempt = Attempt(call: Call, writes: nat)

  function AttemptOps(ix: Index, a: Attempt): seq<Op>
    requires a.writes <= |CallOps(ix, a.call)|
  {
    CallOps(ix, a.call)[..a.writes]
  }

  predicate Completed(ix: Index, a: Attempt) {
    a.writes == |CallOps(ix, a.call)|
  }

  /** Well-formed calls, each where it happens. */
  ghost predicate HistoryOk(ix: Index, attempts: seq<Attempt>)
    decreases |attempts|
  {
    attempts == [] ||
    (var a := attempts[0];
     a.writes <= |CallOps(ix, a.call)| && CallOk(ix, a.call) && HistoryOk(Exec(ix, AttemptOps(ix, a)), attempts[1..]))
  }

  /** No call of the history would trim a list. */
  ghost predicate NeverTrims(ix: Index, attempts: seq<Attempt>)
    requires HistoryOk(ix, attempts)
    decreases |attempts|
  {
    attempts == [] ||
    (NoTrim(CallOps(ix, attempts[0].call)) && NeverTrims(Exec(ix, AttemptOps(ix, attempts[0])), attempts[1..]))
  }

  ghost function After(ix: Index, attempts: seq<Attempt>): Index
    requires HistoryOk(ix, attempts)
    decreases |attempts|
  {
    if attempts == [] then ix else After(Exec(ix, AttemptOps(ix, attempts[0])), attempts[1..])
  }

  /** A crash breaks the slot of its call; adding the session again, to the end, mends it. */
  function BrokenBy(ix: Index, broken: set<Slot>, a: Attempt): set<Slot> {
    if !Completed(ix, a) then broken + {a.call.slot}
    else if a.call.AddSession? then broken - {a.call.slot}
    else broken
  }

  ghost function Broken(ix: Index, broken: set<Slot>, attempts: seq<Attempt>): set<Slot>
    requires HistoryOk(ix, attempts)
    decreases |attempts|
  {
    if attempts == [] then broken
    else Broken(Exec(ix, AttemptOps(ix, attempts[0])), BrokenBy(ix, broken, attempts[0]), attempts[1..])
  }

  // ---- agreement over histories ----------------------------------------------------------------

  /** Wherever a call is cut, only its own slot can lose agreement, and soundness stays. */
  lemma CutAgreesExcept(ix: Index, broken: set<Slot>, call: Call, n: nat)
    requires AgreeExcept(ix, broken) && CallOk(ix, call) && NoTrim(CallOps(ix, call)) && n <= |CallOps(ix, call)|
    ensures AgreeExcept(Exec(ix, CallOps(ix, call)[..n]), broken + {call.slot})
  {
    var cut := CallOps(ix, call)[..n];
    CrashKeepsIndexSound(ix, call, n);
    CallWithin(ix, call);
    hide Sound, AllNamed, CallOk, NoTrim, Within, Elsewhere, SameRowsElsewhere, CallOps;
    ProgramKeepsOthers(ix, cut, call.slot);
    OneSlotBreaksNoOther(ix, broken, call.slot, Exec(ix, cut));
  }

  /** From any broken state of a session, adding it restores full agreement. */
  lemma AddingRepairs(ix: Index, call: Call)
    requires AgreeExcept(ix, {call.slot}) && call.AddSession? && CallOk(ix, call) && NoTrim(CallOps(ix, call))
    ensures Agree(Exec(ix, CallOps(ix, call)))
  {
    hide Agree, AgreeExcept, CallOk, CallOps;
    CallAgreesExcept(ix, {call.slot}, call);
    assert {call.slot} - {call.slot} == {};
    AgreeIffNoneBroken(Exec(ix, CallOps(ix, call)));
  }

  lemma AttemptAgrees(ix: Index, broken: set<Slot>, a: Attempt)
    requires AgreeExcept(ix, broken) && CallOk(ix, a.call) && NoTrim(CallOps(ix, a.call)) && a.writes <= |CallOps(ix, a.call)|
    ensures AgreeExcept(Exec(ix, AttemptOps(ix, a)), BrokenBy(ix, broken, a))
  {
    hide AgreeExcept, CallOk, NoTrim, CallOps;
    CutAgreesExcept(ix, broken, a.call, a.writes);
    CallAgreesExcept(ix, broken, a.call);
    assert CallOps(ix, a.call)[..|CallOps(ix, a.call)|] == CallOps(ix, a.call);
  }

  /**
   * Over any history of calls and crashes the index agrees with the rows for every slot that was
   * added again since it was last cut short, and is sound for the others.
   */
  lemma {:induction false} HistoriesAgree(ix: Index, broken: set<Slot>, attempts: seq<Attempt>)
    requires HistoryOk(ix, attempts) && NeverTrims(ix, attempts) && AgreeExcept(ix, broken)
    ensures AgreeExcept(After(ix, attempts), Broken(ix, broken, attempts))
    decreases |attempts|
  {
    hide AgreeExcept, CallOk, NoTrim, AttemptOps, BrokenBy;
    if attempts != [] {
      AttemptAgrees(ix, broken, attempts[0]);
      HistoriesAgree(Exec(ix, AttemptOps(ix, attempts[0])), BrokenBy(ix, broken, attempts[0]), attempts[1..]);
    }
  }

  /** Every call of the history ran to its end. */
  ghost predicate AllCompleted(ix: Index, attempts: seq<Attempt>)
    requires HistoryOk(ix, attempts)
    decreases |attempts|
  {
    attempts == [] || (Completed(ix, attempts[0]) && AllCompleted(Exec(ix, AttemptOps(ix, attempts[0])), attempts[1..]))
  }

  /** Any sequence of completed calls from the empty index ends in full agreement. */
  lemma RunsAgree(attempts: seq<Attempt>)
    requires HistoryOk(EMPTY_INDEX, attempts) && NeverTrims(EMPTY_INDEX, attempts) && AllCompleted(EMPTY_INDEX, attempts)
    ensures Agree(After(EMPTY_INDEX, attempts))
  {
    hide Agree, AgreeExcept, HistoryOk, NeverTrims, AllCompleted, Broken, After;
    EmptyAgrees();
    CompletedBreakNothing(EMPTY_INDEX, attempts);
    HistoriesAgree(EMPTY_INDEX, {}, attempts);
    AgreeIffNoneBroken(After(EMPTY_INDEX, attempts));
  }

  lemma EmptyAgrees()
    ensures AgreeExcept(EMPTY_INDEX, {})
  {
  }

  lemma {:induction false} CompletedBreakNothing(ix: Index, attempts: seq<Attempt>)
    requires HistoryOk(ix, attempts) && AllCompleted(ix, attempts)
    ensures Broken(ix, {}, attempts) == {}
    decreases |attempts|
  {
    hide CallOk, AttemptOps;
    if attempts != [] {
      assert {} - {attempts[0].call.slot} == {};
      CompletedBreakNothing(Exec(ix, AttemptOps(ix, attempts[0])), attempts[1..]);
    }
  }

  // ---- a bound that rules out trims ----------------------------------------------------------------

  /** Refs that a program appends to a list. */
  function Appends(ops: seq<Op>, list: ListId): nat {
    if ops == [] then 0
    else (if ops[0].AppendRef? && ops[0].list == list then 1 else 0) + Appends(ops[1..], list)
  }

  lemma {:induction false} AppendsConcat(a: seq<Op>, b: seq<Op>, list: ListId)
    ensures Appends(a + b, list) == Appends(a, list) + Appends(b, list)
  {
    if a == [] {
      assert a + b == b;
    } else {
      assert (a + b)[1..] == a[1..] + b;
      AppendsConcat(a[1..], b, list);
    }
  }

  lemma {:induction false} DropShrinks(refs: seq<Ref>, ref: Ref)
    ensures |Drop(refs, ref)| <= |refs|
  {
    if refs != [] {
      DropShrinks(refs[1..], ref);
    }
  }

  lemma OpGrowsPosts(ix: Index, op: Op, list: ListId)
    ensures |Posts(Do(ix, op), list)| <= |Posts(ix, list)| + if op.AppendRef? && op.list == list then 1 else 0
  {
    if op.RemoveRefs? {
      DropShrinks(Posts(ix, op.list), op.ref);
    }
  }

  /** A list grows by no more than what is appended to it. */
  lemma {:induction false} PostsGrow(ix: Index, ops: seq<Op>, list: ListId)
    ensures |Posts(Exec(ix, ops), list)| <= |Posts(ix, list)| + Appends(ops, list)
    decreases |ops|
  {
    hide Posts, Do;
    if ops != [] {
      OpGrowsPosts(ix, ops[0], list);
      PostsGrow(Do(ix, ops[0]), ops[1..], list);
    }
  }

  lemma {:induction false} RefsAppend(ix: Index, id: RowId, ref: Ref, tokens: seq<string>, list: ListId)
    requires Distinct(tokens)
    ensures Appends(RefsOps(ix, id, ref, tokens), list)
            <= if list.app == id.app && list.user == id.user && list.token in tokens then 1 else 0
    decreases |tokens|
  {
    if tokens != [] {
      var first := AppendOps(ix, ListOf(id, tokens[0]), ref);
      RefsAppend(Exec(ix, first), id, ref, tokens[1..], list);
      AppendsConcat(first, RefsOps(Exec(ix, first), id, ref, tokens[1..]), list);
      OneAppends(ix, ListOf(id, tokens[0]), ref, list);
      assert tokens == [tokens[0]] + tokens[1..];
      assert tokens[0] !in tokens[1..];
    }
  }

  lemma OneAppends(ix: Index, to: ListId, ref: Ref, list: ListId)
    ensures Appends(AppendOps(ix, to, ref), list) == if to == list then 1 else 0
  {
    var ops := AppendOps(ix, to, ref);
    if |ops| == 1 {
      assert ops[1..] == [];
    } else {
      assert ops[1..] == [ops[1]] && ops[1..][1..] == [];
      assert Appends(ops[1..], list) == Appends([], list);
    }
  }

  lemma {:induction false} InsertsAppend(ix: Index, slot: Slot, events: seq<MemoryEvent>, skipStored: bool, list: ListId)
    requires WellFormed(events)
    ensures Appends(InsertAllOps(ix, slot, events, skipStored), list)
            <= if list.app == slot.app && list.user == slot.user then Searchables(events) else 0
    decreases |events|
  {
    hide RefsOps;
    if events != [] {
      var e := events[0];
      var id := RowIdOf(slot, e);
      var put := Do(ix, PutRow(id, RowFor(e)));
      var first := InsertOps(ix, id, RowFor(e));
      assert e in events;
      InsertsAppend(ix, slot, events[1..], skipStored, list);
      InsertsAppend(Exec(ix, first), slot, events[1..], skipStored, list);
      RefsAppend(put, id, RefOf(id, RowFor(e)), e.keywords, list);
      assert first[1..] == RefsOps(put, id, RefOf(id, RowFor(e)), e.keywords);
      AppendsConcat(first, InsertAllOps(Exec(ix, first), slot, events[1..], skipStored), list);
    }
  }

  lemma {:induction false} NoAppends(ops: seq<Op>, list: ListId)
    requires forall i :: 0 <= i < |ops| ==> !ops[i].AppendRef?
    ensures Appends(ops, list) == 0
  {
    if ops != [] {
      NoAppends(ops[1..], list);
    }
  }

  lemma {:induction false} PurgeOnlyRemoves(found: seq<(RowId, Row)>)
    ensures forall i :: 0 <= i < |PurgeOps(found)| ==> PurgeOps(found)[i].RemoveRefs? || PurgeOps(found)[i].RemoveRow?
  {
    if found != [] {
      StripOnlyRemoves(found[0].0, RefOf(found[0].0, found[0].1), found[0].1.keywords);
      PurgeOnlyRemoves(found[1..]);
    }
  }

  lemma {:induction false} StripOnlyRemoves(id: RowId, ref: Ref, tokens: seq<string>)
    ensures forall i :: 0 <= i < |RemoveRefsOps(id, ref, tokens)| ==> RemoveRefsOps(id, ref, tokens)[i].RemoveRefs?
  {
    if tokens != [] {
      StripOnlyRemoves(id, ref, tokens[1..]);
    }
  }

  /** One call: at most one ref per searchable event and list, and no trim where there is room. */
  lemma CallAppends(ix: Index, call: Call, list: ListId)
    requires CallOk(ix, call)
    ensures Appends(CallOps(ix, call), list)
            <= if list.app == call.slot.app && list.user == call.slot.user then Searchables(call.events) else 0
  {
    hide PurgeOps, InsertAllOps, Enumerates, DistinctIds;
    match call
    case AddSession(slot, found, events) =>
      PurgeOnlyRemoves(found);
      NoAppends(PurgeOps(found), list);
      InsertsAppend(Exec(ix, PurgeOps(found)), slot, events, false, list);
      AppendsConcat(PurgeOps(found), InsertAllOps(Exec(ix, PurgeOps(found)), slot, events, false), list);
    case AddEvents(slot, events) => InsertsAppend(ix, slot, events, true, list);
  }

  lemma RoomyCallNeverTrims(ix: Index, call: Call)
    requires CallOk(ix, call)
    requires forall t :: |Posts(ix, ListId(call.slot.app, call.slot.user, t))| + Searchables(call.events) <= 2048
    ensures NoTrim(CallOps(ix, call))
  {
    hide PurgeOps, InsertAllOps, Enumerates, DistinctIds, WellFormed;
    match call
    case AddSession(slot, found, events) =>
      var purged := Exec(ix, PurgeOps(found));
      PurgeOnlyRemoves(found);
      forall t ensures |Posts(purged, ListId(slot.app, slot.user, t))| <= |Posts(ix, ListId(slot.app, slot.user, t))| {
        NoAppends(PurgeOps(found), ListId(slot.app, slot.user, t));
        PostsGrow(ix, PurgeOps(found), ListId(slot.app, slot.user, t));
      }
      RoomyNeverTrims(purged, slot, events, false);
      NoTrimConcat(PurgeOps(found), InsertAllOps(purged, slot, events, false));
    case AddEvents(slot, events) => RoomyNeverTrims(ix, slot, events, true);
  }

  /** Searchable events of one user in all calls of a history. */
  function EventsOf(attempts: seq<Attempt>, app: string, user: string): nat {
    if attempts == [] then 0
    else
      var call := attempts[0].call;
      (if call.slot.app == app && call.slot.user == user then Searchables(call.events) else 0) + EventsOf(attempts[1..], app, user)
  }

  /** A history with at most 2048 searchable events per user never trims a list. */
  lemma {:induction false} FewEventsNeverTrim(ix: Index, attempts: seq<Attempt>)
    requires HistoryOk(ix, attempts)
    requires forall list :: |Posts(ix, list)| + EventsOf(attempts, list.app, list.user) <= 2048
    ensures NeverTrims(ix, attempts)
    decreases |attempts|
  {
    hide CallOk, CallOps, Posts, NoTrim;
    if attempts != [] {
      var a := attempts[0];
      var ops, next := CallOps(ix, a.call), Exec(ix, AttemptOps(ix, a));
      RoomyCallNeverTrims(ix, a.call);
      forall list ensures |Posts(next, list)| + EventsOf(attempts[1..], list.app, list.user) <= MAX_POSTING_LIST_SIZE {
        CallAppends(ix, a.call, list);
        assert ops == ops[..a.writes] + ops[a.writes..];
        AppendsConcat(ops[..a.writes], ops[a.writes..], list);
        PostsGrow(ix, ops[..a.writes], list);
      }
      FewEventsNeverTrim(next, attempts[1..]);
    }
  }

  // ---- recovery ----------------------------------------------------------------------------------

  /** Same rows, and the same refs in the same order. */
  ghost predicate Alike(a: Index, b: Index) {
    a.rows == b.rows && forall list :: Posts(a, list) == Posts(b, list)
  }

  lemma AlikeDo(a: Index, b: Index, op: Op)
    requires Alike(a, b)
    ensures Alike(Do(a, op), Do(b, op))
  {
    forall list ensures Posts(Do(a, op), list) == Posts(Do(b, op), list) {
      assert Posts(a, list) == Posts(b, list);
    }
  }

  lemma {:induction false} AlikeExec(a: Index, b: Index, ops: seq<Op>)
    requires Alike(a, b)
    ensures Alike(Exec(a, ops), Exec(b, ops))
    decreases |ops|
  {
    hide Alike;
    if ops != [] {
      AlikeDo(a, b, ops[0]);
      AlikeExec(Do(a, ops[0]), Do(b, ops[0]), ops[1..]);
    }
  }

  lemma {:induction false} AlikeRefs(a: Index, b: Index, id: RowId, ref: Ref, tokens: seq<string>)
    requires Alike(a, b)
    ensures RefsOps(a, id, ref, tokens) == RefsOps(b, id, ref, tokens)
    decreases |tokens|
  {
    hide Exec;
    if tokens != [] {
      var first := AppendOps(a, ListOf(id, tokens[0]), ref);
      AlikeExec(a, b, first);
      AlikeRefs(Exec(a, first), Exec(b, first), id, ref, tokens[1..]);
    }
  }

  lemma {:induction false} AlikeInserts(a: Index, b: Index, slot: Slot, events: seq<MemoryEvent>)
    requires Alike(a, b)
    ensures InsertAllOps(a, slot, events, false) == InsertAllOps(b, slot, events, false)
    decreases |events|
  {
    hide Exec, RefsOps;
    if events != [] {
      var id := RowIdOf(slot, events[0]);
      var row := RowFor(events[0]);
      AlikeDo(a, b, PutRow(id, row));
      AlikeRefs(Do(a, PutRow(id, row)), Do(b, PutRow(id, row)), id, RefOf(id, row), row.keywords);
      var first := InsertOps(a, id, row);
      AlikeExec(a, b, first);
      AlikeInserts(Exec(a, first), Exec(b, first), slot, events[1..]);
      AlikeInserts(a, b, slot, events[1..]);
    }
  }

  lemma PurgesAlike(ix: Index, crashed: Index, slot: Slot, found: seq<(RowId, Row)>, again: seq<(RowId, Row)>)
    requires Sound(ix) && AllNamed(ix) && Enumerates(ix, slot, found)
    requires Sound(crashed) && AllNamed(crashed) && Enumerates(crashed, slot, again)
    requires SameRowsElsewhere(ix, crashed, slot)
    requires forall list :: Elsewhere(crashed, slot, list) == Elsewhere(ix, slot, list)
    ensures Alike(Exec(ix, PurgeOps(found)), Exec(crashed, PurgeOps(again)))
  {
    hide Enumerates, Elsewhere, Sound, AllNamed;
    PurgeClears(ix, slot, found);
    PurgeClears(crashed, slot, again);
  }

  lemma AddsAlike(a: Index, b: Index, slot: Slot, found: seq<(RowId, Row)>, again: seq<(RowId, Row)>, events: seq<MemoryEvent>)
    requires Alike(Exec(a, PurgeOps(found)), Exec(b, PurgeOps(again)))
    ensures Alike(Exec(a, AddSessionOps(a, slot, found, events)), Exec(b, AddSessionOps(b, slot, again, events)))
  {
    hide Alike, Exec, InsertAllOps;
    var p, q := Exec(a, PurgeOps(found)), Exec(b, PurgeOps(again));
    AlikeInserts(p, q, slot, events);
    var rest := InsertAllOps(p, slot, events, false);
    AlikeExec(p, q, rest);
    ExecSplits(a, PurgeOps(found), rest);
    ExecSplits(b, PurgeOps(again), rest);
  }

  /**
   * Adding a session forgets a crash: wherever a call for the session was cut, whichever call it
   * was, adding the session afterwards, grown or not, leaves exactly the index that adding it
   * without the crash would have left, order of refs included.
   */
  lemma AddingForgetsCrash(ix: Index, call: Call, n: nat, found: seq<(RowId, Row)>, again: seq<(RowId, Row)>, events: seq<MemoryEvent>)
    requires Sound(ix) && AllNamed(ix) && CallOk(ix, call) && NoTrim(CallOps(ix, call)) && n <= |CallOps(ix, call)|
    requires Enumerates(ix, call.slot, found) && Enumerates(Exec(ix, CallOps(ix, call)[..n]), call.slot, again)
    ensures var crashed := Exec(ix, CallOps(ix, call)[..n]);
            Alike(Exec(crashed, AddSessionOps(crashed, call.slot, again, events)), Exec(ix, AddSessionOps(ix, call.slot, found, events)))
  {
    hide Sound, AllNamed, Enumerates, Elsewhere, CallOps, SameRowsElsewhere, Within, Exec, AddSessionOps, CallOk, Alike;
    var crashed := Exec(ix, CallOps(ix, call)[..n]);
    CrashKeepsIndexSound(ix, call, n);
    CallWithin(ix, call);
    ProgramKeepsOthers(ix, CallOps(ix, call)[..n], call.slot);
    PurgesAlike(ix, crashed, call.slot, found, again);
    AddsAlike(ix, crashed, call.slot, found, again, events);
    AlikeSwaps(Exec(ix, AddSessionOps(ix, call.slot, found, events)), Exec(crashed, AddSessionOps(crashed, call.slot, again, events)));
  }

  lemma AlikeSwaps(a: Index, b: Index)
    requires Alike(a, b)
    ensures Alike(b, a)
  {
  }

  /** In particular, running a crashed `add_session_to_memory` again completes it. */
  lemma RerunRepairsCrash(ix: Index, slot: Slot, found: seq<(RowId, Row)>, events: seq<MemoryEvent>, n: nat, again: seq<(RowId, Row)>)
    requires Agree(ix) && WellFormed(events) && DistinctIds(events) && Enumerates(ix, slot, found)
    requires NoTrim(AddSessionOps(ix, slot, found, events)) && n <= |AddSessionOps(ix, slot, found, events)|
    requires Enumerates(Exec(ix, AddSessionOps(ix, slot, found, events)[..n]), slot, again)
    ensures var crashed := Exec(ix, AddSessionOps(ix, slot, found, events)[..n]);
            var repaired := Exec(crashed, AddSessionOps(crashed, slot, again, events));
            Alike(repaired, Exec(ix, AddSessionOps(ix, slot, found, events))) && Agree(repaired)
  {
    hide Agree, Enumerates, AddSessionOps, Alike, Exec;
    var call := AddSession(slot, found, events);
    var crashed := Exec(ix, AddSessionOps(ix, slot, found, events)[..n]);
    NamedWhenAgree(ix);
    AddingForgetsCrash(ix, call, n, found, again, events);
    CallAgrees(ix, call);
    AlikeSwaps(Exec(crashed, AddSessionOps(crashed, slot, again, events)), Exec(ix, AddSessionOps(ix, slot, found, events)));
    AlikeAgrees(Exec(ix, AddSessionOps(ix, slot, found, events)), Exec(crashed, AddSessionOps(crashed, slot, again, events)));
  }

  lemma AlikeAgrees(a: Index, b: Index)
    requires Agree(a) && Alike(a, b)
    ensures Agree(b)
  {
    forall list, ref ensures Count(b, list, ref) == if Points(b, list, ref) then 1 else 0 {
      assert Count(a, list, ref) == if Points(a, list, ref) then 1 else 0;
      assert Posts(a, list) == Posts(b, list);
    }
  }
}
