/** The index agrees with the rows over whole runs, at every crash point, and after recovery. */
module MemoryAgreement {
  import opened MemoryIndex

  function Count(ix: Index, list: ListId, ref: Ref): nat {
    multiset(Posts(ix, list))[ref]
  }

  /** A list holds one ref per row of its user with its token, and nothing else. */
  ghost predicate Agree(ix: Index) {
    && (forall id :: id in ix.rows ==> id.event != "")
    && (forall list, ref :: Count(ix, list, ref) == if Points(ix, list, ref) then 1 else 0)
  }

  lemma AgreeIsSound(ix: Index)
    requires Agree(ix)
    ensures Sound(ix)
    ensures forall list, ref :: ref in Posts(ix, list) ==> Names(ref)
  {
    forall list, ref | ref in Posts(ix, list) ensures Points(ix, list, ref) && Names(ref) {
      assert Count(ix, list, ref) > 0;
    }
  }

  // ---- programs that touch one slot only ---------------------------------------------------

  /** The write concerns rows and refs of the slot only. */
  predicate Within(op: Op, slot: Slot) {
    match op
    case PutRow(id, _) => SlotOf(id) == slot && id.event != ""
    case AppendRef(list, ref) => SlotOf(RowOf(list, ref)) == slot && Names(ref)
    case TrimFront(_, _) => false
    case RemoveRefs(list, ref) => SlotOf(RowOf(list, ref)) == slot
    case RemoveRow(id) => SlotOf(id) == slot
  }

  predicate NoTrim(ops: seq<Op>) {
    forall i :: 0 <= i < |ops| ==> !ops[i].TrimFront?
  }

  predicate AllWithin(ops: seq<Op>, slot: Slot) {
    forall i :: 0 <= i < |ops| ==> Within(ops[i], slot)
  }

  /** A program that stays within the slot, apart from trims. */
  predicate Targets(ops: seq<Op>, slot: Slot) {
    forall i :: 0 <= i < |ops| ==> ops[i].TrimFront? || Within(ops[i], slot)
  }

  /** Refs of other sessions, in order. */
  function Others(refs: seq<Ref>, session: string): seq<Ref> {
    if refs == [] then []
    else (if refs[0].session != session then [refs[0]] else []) + Others(refs[1..], session)
  }

  /** What a list holds for other slots. */
  function Elsewhere(ix: Index, slot: Slot, list: ListId): seq<Ref> {
    if list.app == slot.app && list.user == slot.user then Others(Posts(ix, list), slot.session) else Posts(ix, list)
  }

  lemma {:induction false} OthersConcat(a: seq<Ref>, b: seq<Ref>, session: string)
    ensures Others(a + b, session) == Others(a, session) + Others(b, session)
  {
    if a == [] {
      assert a + b == b;
    } else {
      assert (a + b)[1..] == a[1..] + b;
      OthersConcat(a[1..], b, session);
    }
  }

  lemma {:induction false} OthersAfterDrop(refs: seq<Ref>, ref: Ref)
    ensures Others(Drop(refs, ref), ref.session) == Others(refs, ref.session)
  {
    if refs != [] {
      OthersAfterDrop(refs[1..], ref);
      OthersConcat([refs[0]], Drop(refs[1..], ref), ref.session);
      assert Others([refs[0]], ref.session) == if refs[0].session != ref.session then [refs[0]] else [];
    }
  }

  lemma {:induction false} OthersCounts(refs: seq<Ref>, session: string, ref: Ref)
    ensures multiset(Others(refs, session))[ref] == if ref.session == session then 0 else multiset(refs)[ref]
  {
    if refs != [] {
      OthersCounts(refs[1..], session, ref);
      assert refs == [refs[0]] + refs[1..];
    }
  }

  lemma {:induction false} OthersOfForeign(refs: seq<Ref>, session: string)
    requires forall ref :: ref in refs ==> ref.session != session
    ensures Others(refs, session) == refs
  {
    if refs != [] {
      OthersOfForeign(refs[1..], session);
    }
  }

  /** Rows outside the slot are the same. */
  ghost predicate SameRowsElsewhere(a: Index, b: Index, slot: Slot) {
    forall id :: SlotOf(id) != slot ==> (id in a.rows <==> id in b.rows) && (id in a.rows ==> a.rows[id] == b.rows[id])
  }

  ghost predicate AllNamed(ix: Index) {
    && (forall id :: id in ix.rows ==> id.event != "")
    && (forall list, ref :: ref in Posts(ix, list) ==> Names(ref))
  }

  lemma WithinKeepsOthers(ix: Index, op: Op, slot: Slot)
    requires Within(op, slot)
    ensures SameRowsElsewhere(ix, Do(ix, op), slot)
    ensures forall list :: Elsewhere(Do(ix, op), slot, list) == Elsewhere(ix, slot, list)
    ensures AllNamed(ix) ==> AllNamed(Do(ix, op))
  {
    hide Others, Drop;
    if op.AppendRef? {
      OthersConcat(Posts(ix, op.list), [op.ref], slot.session);
      OthersOfOne(op.ref);
    } else if op.RemoveRefs? {
      OthersAfterDrop(Posts(ix, op.list), op.ref);
    }
    if AllNamed(ix) {
      forall list, ref | ref in Posts(Do(ix, op), list) ensures Names(ref) {
        RefsComeFrom(ix, op, list, ref);
      }
    }
  }

  lemma OthersOfOne(ref: Ref)
    ensures Others([ref], ref.session) == []
  {
  }

  /** A program within a slot changes nothing of any other slot, wherever it is cut. */
  lemma {:induction false} ProgramKeepsOthers(ix: Index, ops: seq<Op>, slot: Slot)
    requires AllWithin(ops, slot)
    ensures SameRowsElsewhere(ix, Exec(ix, ops), slot)
    ensures forall list :: Elsewhere(Exec(ix, ops), slot, list) == Elsewhere(ix, slot, list)
    ensures AllNamed(ix) ==> AllNamed(Exec(ix, ops))
    decreases |ops|
  {
    hide Elsewhere, AllNamed, Within;
    if ops != [] {
      WithinKeepsOthers(ix, ops[0], slot);
      ProgramKeepsOthers(Do(ix, ops[0]), ops[1..], slot);
    }
  }

  lemma {:induction false} RefsTarget(ix: Index, id: RowId, ref: Ref, tokens: seq<string>)
    requires RowOf(ListOf(id, ""), ref) == id && Names(ref)
    ensures Targets(RefsOps(ix, id, ref, tokens), SlotOf(id))
    decreases |tokens|
  {
    if tokens != [] {
      RefsTarget(Exec(ix, AppendOps(ix, ListOf(id, tokens[0]), ref)), id, ref, tokens[1..]);
    }
  }

  predicate NamedIds(events: seq<MemoryEvent>) {
    forall e :: e in events ==> e.id != ""
  }

  lemma {:induction false} InsertAllTargets(ix: Index, slot: Slot, events: seq<MemoryEvent>, skipStored: bool)
    requires NamedIds(events)
    ensures Targets(InsertAllOps(ix, slot, events, skipStored), slot)
    decreases |events|
  {
    if events != [] {
      var e := events[0];
      var id := RowIdOf(slot, e);
      var rest := events[1..];
      assert e in events;
      RefsTarget(Do(ix, PutRow(id, RowFor(e))), id, RefOf(id, RowFor(e)), e.keywords);
      InsertAllTargets(ix, slot, rest, skipStored);
      InsertAllTargets(Exec(ix, InsertOps(ix, id, RowFor(e))), slot, rest, skipStored);
    }
  }

  lemma {:induction false} RemoveRefsTargets(id: RowId, ref: Ref, tokens: seq<string>)
    requires RowOf(ListOf(id, ""), ref) == id
    ensures AllWithin(RemoveRefsOps(id, ref, tokens), SlotOf(id))
  {
    if tokens != [] {
      RemoveRefsTargets(id, ref, tokens[1..]);
    }
  }

  lemma {:induction false} PurgeTargets(found: seq<(RowId, Row)>, slot: Slot)
    requires forall i :: 0 <= i < |found| ==> SlotOf(found[i].0) == slot
    ensures AllWithin(PurgeOps(found), slot)
  {
    if found != [] {
      RemoveRefsTargets(found[0].0, RefOf(found[0].0, found[0].1), found[0].1.keywords);
      PurgeTargets(found[1..], slot);
    }
  }

  // ---- purge -----------------------------------------------------------------------------------

  /** A purge removes exactly the slot's rows and refs, and keeps every other ref in its place. */
  lemma PurgeClears(ix: Index, slot: Slot, found: seq<(RowId, Row)>)
    requires Sound(ix) && AllNamed(ix) && Enumerates(ix, slot, found)
    ensures var after := Exec(ix, PurgeOps(found));
            && (forall id :: id in after.rows <==> id in ix.rows && SlotOf(id) != slot)
            && SameRowsElsewhere(ix, after, slot)
            && (forall list :: Posts(after, list) == Elsewhere(ix, slot, list))
            && Sound(after) && AllNamed(after)
  {
    hide SafeProgram;
    var after := Exec(ix, PurgeOps(found));
    PurgeTargets(found, slot);
    ProgramKeepsOthers(ix, PurgeOps(found), slot);
    PurgeIsSafe(ix, found);
    SafeProgramKeepsSound(ix, PurgeOps(found));
    forall list: ListId ensures Posts(after, list) == Elsewhere(after, slot, list) {
      if list.app == slot.app && list.user == slot.user {
        forall ref | ref in Posts(after, list) ensures ref.session != slot.session {
          assert Points(after, list, ref);
        }
        OthersOfForeign(Posts(after, list), slot.session);
      }
    }
  }

  /** Full agreement for all slots but those of `broken`, where the index is merely sound. */
  ghost predicate AgreeExcept(ix: Index, broken: set<Slot>) {
    && Sound(ix) && AllNamed(ix)
    && forall list, ref :: SlotOf(RowOf(list, ref)) !in broken ==> Count(ix, list, ref) == if Points(ix, list, ref) then 1 else 0
  }

  lemma AgreeIffNoneBroken(ix: Index)
    ensures Agree(ix) <==> AgreeExcept(ix, {})
  {
    if Agree(ix) {
      AgreeIsSound(ix);
    }
  }

  /** A purge mends a broken slot: nothing is left of it. */
  lemma PurgeMends(ix: Index, broken: set<Slot>, slot: Slot, after: Index)
    requires AgreeExcept(ix, broken) && Sound(after) && AllNamed(after)
    requires forall id :: id in after.rows <==> id in ix.rows && SlotOf(id) != slot
    requires SameRowsElsewhere(ix, after, slot)
    requires forall list :: Posts(after, list) == Elsewhere(ix, slot, list)
    ensures AgreeExcept(after, broken - {slot})
  {
    hide Sound, AllNamed;
    forall list, ref | SlotOf(RowOf(list, ref)) !in broken - {slot}
      ensures Count(after, list, ref) == if Points(after, list, ref) then 1 else 0
    {
      OthersCounts(Posts(ix, list), slot.session, ref);
      assert SlotOf(RowOf(list, ref)) !in broken ==> Count(ix, list, ref) == if Points(ix, list, ref) then 1 else 0;
      assert SlotOf(RowOf(list, ref)) == slot ==> RowOf(list, ref) !in after.rows;
    }
  }

  lemma CountElsewhere(a: Index, b: Index, slot: Slot, list: ListId, ref: Ref)
    requires Elsewhere(a, slot, list) == Elsewhere(b, slot, list) && SlotOf(RowOf(list, ref)) != slot
    ensures Count(a, list, ref) == Count(b, list, ref)
  {
    hide Posts, Others;
    OthersCounts(Posts(a, list), slot.session, ref);
    OthersCounts(Posts(b, list), slot.session, ref);
  }

  lemma PointsElsewhere(a: Index, b: Index, slot: Slot, list: ListId, ref: Ref)
    requires SameRowsElsewhere(a, b, slot) && SlotOf(RowOf(list, ref)) != slot
    ensures Points(a, list, ref) <==> Points(b, list, ref)
  {
  }

  /** Whatever happens within one slot breaks no other. */
  lemma OneSlotBreaksNoOther(ix: Index, broken: set<Slot>, slot: Slot, after: Index)
    requires AgreeExcept(ix, broken) && Sound(after) && AllNamed(after)
    requires SameRowsElsewhere(ix, after, slot)
    requires forall list :: Elsewhere(after, slot, list) == Elsewhere(ix, slot, list)
    ensures AgreeExcept(after, broken + {slot})
  {
    hide Sound, AllNamed, Count, Points, Elsewhere, SameRowsElsewhere;
    forall list, ref | SlotOf(RowOf(list, ref)) !in broken + {slot}
      ensures Count(after, list, ref) == if Points(after, list, ref) then 1 else 0
    {
      CountElsewhere(after, ix, slot, list, ref);
      PointsElsewhere(ix, after, slot, list, ref);
    }
  }

  // ---- insert ----------------------------------------------------------------------------------

  /** A posting list keeps its newest 2048 refs, in order. */
  lemma NewestAreKept(refs: seq<Ref>, ref: Ref)
    ensures var all, kept := refs + [ref], Appended(refs, ref);
            |kept| == (if |all| <= 2048 then |all| else 2048) && kept == all[|all| - |kept|..]
  {
  }

  /** One insert keeps agreement exactly when none of its posting lists is full. */
  lemma InsertAgreesIff(ix: Index, id: RowId, row: Row)
    requires Agree(ix) && id !in ix.rows && id.event != "" && Distinct(row.keywords)
    ensures Agree(Exec(ix, InsertOps(ix, id, row)))
            <==> forall t :: t in row.keywords ==> |Posts(ix, ListOf(id, t))| < 2048
  {
    hide InsertOps, Exec;
    var after := Exec(ix, InsertOps(ix, id, row));
    InsertEffect(ix, id, row);
    if forall t :: t in row.keywords ==> |Posts(ix, ListOf(id, t))| < MAX_POSTING_LIST_SIZE {
      AgreeIffNoneBroken(ix);
      RoomyInsertAgrees(ix, {}, id, row, after);
      AgreeIffNoneBroken(after);
    } else {
      var t :| t in row.keywords && !(|Posts(ix, ListOf(id, t))| < MAX_POSTING_LIST_SIZE);
      TrimLosesOldest(ix, id, row, after, t);
    }
  }

  ghost predicate Inserted(ix: Index, id: RowId, row: Row, after: Index) {
    && after.rows == ix.rows[id := row]
    && forall l :: Posts(after, l) == if l.app == id.app && l.user == id.user && l.token in row.keywords
                                      then Appended(Posts(ix, l), RefOf(id, row)) else Posts(ix, l)
  }

  /** Under each of its tokens the new ref counts once more, and no other ref does. */
  lemma InsertCounts(ix: Index, id: RowId, row: Row, after: Index, list: ListId, ref: Ref)
    requires Inserted(ix, id, row, after)
    requires forall t :: t in row.keywords ==> |Posts(ix, ListOf(id, t))| < MAX_POSTING_LIST_SIZE
    ensures Count(after, list, ref)
            == Count(ix, list, ref)
               + if list.app == id.app && list.user == id.user && list.token in row.keywords && ref == RefOf(id, row) then 1 else 0
  {
    hide Posts;
    if list.app == id.app && list.user == id.user && list.token in row.keywords {
      assert list == ListOf(id, list.token);
      assert Posts(after, list) == Posts(ix, list) + [RefOf(id, row)];
    }
  }

  lemma RoomyInsertAgrees(ix: Index, broken: set<Slot>, id: RowId, row: Row, after: Index)
    requires AgreeExcept(ix, broken) && id !in ix.rows && id.event != "" && Inserted(ix, id, row, after)
    requires forall t :: t in row.keywords ==> |Posts(ix, ListOf(id, t))| < MAX_POSTING_LIST_SIZE
    ensures AgreeExcept(after, broken)
  {
    RoomyInsertIsSound(ix, id, row, after);
    hide Sound, AllNamed, Posts, Count, Appended;
    forall list, ref | SlotOf(RowOf(list, ref)) !in broken ensures Count(after, list, ref) == if Points(after, list, ref) then 1 else 0 {
      assert Count(ix, list, ref) == if Points(ix, list, ref) then 1 else 0;
      InsertCounts(ix, id, row, after, list, ref);
    }
  }

  lemma InsertedRef(ix: Index, id: RowId, row: Row, after: Index, list: ListId, ref: Ref)
    requires Inserted(ix, id, row, after) && ref in Posts(after, list)
    ensures ref in Posts(ix, list) || (ref == RefOf(id, row) && list.app == id.app && list.user == id.user && list.token in row.keywords)
  {
    hide Posts;
    assert Posts(after, list) == Posts(ix, list) || Posts(after, list) == Appended(Posts(ix, list), RefOf(id, row));
  }

  lemma RoomyInsertIsSound(ix: Index, id: RowId, row: Row, after: Index)
    requires Sound(ix) && AllNamed(ix) && id !in ix.rows && id.event != "" && Inserted(ix, id, row, after)
    ensures Sound(after) && AllNamed(after)
  {
    hide Posts, Appended;
    forall list, ref | ref in Posts(after, list) ensures Names(ref) && Points(after, list, ref) {
      InsertedRef(ix, id, row, after, list, ref);
      if ref in Posts(ix, list) {
        assert Points(ix, list, ref);
      }
    }
  }

  /** The ref cut from a full list pointed to a row that is still stored. */
  lemma TrimLosesOldest(ix: Index, id: RowId, row: Row, after: Index, t: string)
    requires Agree(ix) && id !in ix.rows && Inserted(ix, id, row, after)
    requires t in row.keywords && |Posts(ix, ListOf(id, t))| >= MAX_POSTING_LIST_SIZE
    ensures !Agree(after)
  {
    var list := ListOf(id, t);
    var refs := Posts(ix, list);
    var oldest := refs[0];
    var cut := |refs| + 1 - MAX_POSTING_LIST_SIZE;
    assert Count(ix, list, oldest) == if Points(ix, list, oldest) then 1 else 0;
    assert oldest in refs;
    assert Points(ix, list, oldest);
    assert refs == refs[..cut] + refs[cut..];
    assert oldest in refs[..cut];
    assert (refs + [RefOf(id, row)])[cut..] == refs[cut..] + [RefOf(id, row)];
    assert Count(after, list, oldest) == 0;
    assert Points(after, list, oldest);
  }
}
