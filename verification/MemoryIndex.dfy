/**
 * Memory rows and their inverted index, kept in step by separate single-record writes.
 * Every operation of the service is a program of such writes; a crash cuts it anywhere.
 */
module MemoryIndex {

  /** Key of a memory row. */
  datatype RowId = RowId(app: string, user: string, session: string, event: string)

  datatype Row = Row(keywords: seq<string>, ts: nat, text: string)

  /** Key of the posting list of one token of one user. */
  datatype ListId = ListId(app: string, user: string, token: string)

  datatype Ref = Ref(event: string, session: string, ts: nat)

  datatype Index = Index(rows: map<RowId, Row>, postings: map<ListId, seq<Ref>>)

  /** One session of one user, or the slot for events without a session. */
  datatype Slot = Slot(app: string, user: string, session: string)

  const MAX_POSTING_LIST_SIZE: nat := 2048

  const EMPTY_INDEX := Index(map[], map[])

  /** A missing posting record reads as empty. */
  function Posts(ix: Index, list: ListId): seq<Ref> {
    if list in ix.postings then ix.postings[list] else []
  }

  function RefOf(id: RowId, row: Row): Ref {
    Ref(id.event, id.session, row.ts)
  }

  function ListOf(id: RowId, token: string): ListId {
    ListId(id.app, id.user, token)
  }

  function RowOf(list: ListId, ref: Ref): RowId {
    RowId(list.app, list.user, ref.session, ref.event)
  }

  function SlotOf(id: RowId): Slot {
    Slot(id.app, id.user, id.session)
  }

  // ---- single-record writes ---------------------------------------------------------------

  datatype Op =
    | PutRow(id: RowId, row: Row)
    | AppendRef(list: ListId, ref: Ref)
    | TrimFront(list: ListId, count: nat)
    | RemoveRefs(list: ListId, ref: Ref)
    | RemoveRow(id: RowId)

  /** `list_remove_by_value`: every copy goes. */
  function Drop(refs: seq<Ref>, ref: Ref): seq<Ref> {
    if refs == [] then []
    else if refs[0] == ref then Drop(refs[1..], ref)
    else [refs[0]] + Drop(refs[1..], ref)
  }

  function CutFront(refs: seq<Ref>, count: nat): seq<Ref> {
    if count <= |refs| then refs[count..] else []
  }

  function Do(ix: Index, op: Op): Index {
    match op
    case PutRow(id, row) => ix.(rows := ix.rows[id := row])
    case AppendRef(list, ref) => ix.(postings := ix.postings[list := Posts(ix, list) + [ref]])
    case TrimFront(list, count) => ix.(postings := ix.postings[list := CutFront(Posts(ix, list), count)])
    case RemoveRefs(list, ref) =>
      if list in ix.postings then ix.(postings := ix.postings[list := Drop(ix.postings[list], ref)]) else ix
    case RemoveRow(id) => ix.(rows := ix.rows - {id})
  }

  function Exec(ix: Index, ops: seq<Op>): Index
    decreases |ops|
  {
    if ops == [] then ix else Exec(Do(ix, ops[0]), ops[1..])
  }

  lemma NothingToDo(ix: Index)
    ensures Exec(ix, []) == ix
  {
  }

  lemma {:induction false} ExecSplits(ix: Index, a: seq<Op>, b: seq<Op>)
    ensures Exec(ix, a + b) == Exec(Exec(ix, a), b)
    decreases |a|
  {
    if a == [] {
      assert a + b == b;
    } else {
      assert (a + b)[1..] == a[1..] + b;
      ExecSplits(Do(ix, a[0]), a[1..], b);
    }
  }

  lemma {:induction false} DropKeepsOthers(refs: seq<Ref>, ref: Ref)
    ensures multiset(Drop(refs, ref)) == multiset(refs)[ref := 0]
  {
    if refs != [] {
      DropKeepsOthers(refs[1..], ref);
      assert refs == [refs[0]] + refs[1..];
    }
  }

  // ---- the programs of the service ---------------------------------------------------------

  /** A searchable event: `text` is empty when it has no content. */
  datatype MemoryEvent = MemoryEvent(id: string, ts: nat, text: string, keywords: seq<string>)

  predicate Distinct(tokens: seq<string>) {
    forall i, j :: 0 <= i < j < |tokens| ==> tokens[i] != tokens[j]
  }

  /** `_append_posting_ref`: append, then trim what exceeds the cap. */
  function AppendOps(ix: Index, list: ListId, ref: Ref): seq<Op> {
    var size := |Posts(ix, list)| + 1;
    [AppendRef(list, ref)] + if size <= MAX_POSTING_LIST_SIZE then [] else [TrimFront(list, size - MAX_POSTING_LIST_SIZE)]
  }

  function RefsOps(ix: Index, id: RowId, ref: Ref, tokens: seq<string>): seq<Op>
    decreases |tokens|
  {
    if tokens == [] then []
    else
      var first := AppendOps(ix, ListOf(id, tokens[0]), ref);
      first + RefsOps(Exec(ix, first), id, ref, tokens[1..])
  }

  /** `_upsert_memory`: the row before its refs. */
  function InsertOps(ix: Index, id: RowId, row: Row): seq<Op> {
    [PutRow(id, row)] + RefsOps(Do(ix, PutRow(id, row)), id, RefOf(id, row), row.keywords)
  }

  function RowIdOf(slot: Slot, e: MemoryEvent): RowId {
    RowId(slot.app, slot.user, slot.session, e.id)
  }

  function RowFor(e: MemoryEvent): Row {
    Row(e.keywords, e.ts, e.text)
  }

  /** The inserting loop; `skipStored` is the check that `add_events_to_memory` makes first. */
  function InsertAllOps(ix: Index, slot: Slot, events: seq<MemoryEvent>, skipStored: bool): seq<Op>
    decreases |events|
  {
    if events == [] then []
    else
      var e := events[0];
      if e.text == "" || (skipStored && RowIdOf(slot, e) in ix.rows) then InsertAllOps(ix, slot, events[1..], skipStored)
      else
        var first := InsertOps(ix, RowIdOf(slot, e), RowFor(e));
        first + InsertAllOps(Exec(ix, first), slot, events[1..], skipStored)
  }

  function RemoveRefsOps(id: RowId, ref: Ref, tokens: seq<string>): seq<Op> {
    if tokens == [] then [] else [RemoveRefs(ListOf(id, tokens[0]), ref)] + RemoveRefsOps(id, ref, tokens[1..])
  }

  /** One turn of `_purge_session_memories`: the refs before their row. */
  function PurgeRowOps(id: RowId, row: Row): seq<Op> {
    (if id.event != "" then RemoveRefsOps(id, RefOf(id, row), row.keywords) else []) + [RemoveRow(id)]
  }

  function PurgeOps(found: seq<(RowId, Row)>): seq<Op> {
    if found == [] then [] else PurgeRowOps(found[0].0, found[0].1) + PurgeOps(found[1..])
  }

  /** The rows a purge has read are still as stored, each once. */
  ghost predicate AsStored(ix: Index, found: seq<(RowId, Row)>) {
    && (forall i :: 0 <= i < |found| ==> found[i].0 in ix.rows && found[i].1 == ix.rows[found[i].0])
    && (forall i, j :: 0 <= i < j < |found| ==> found[i].0 != found[j].0)
  }

  /** What the query for a session's rows may return: each of them once, in any order. */
  ghost predicate Enumerates(ix: Index, slot: Slot, found: seq<(RowId, Row)>) {
    && AsStored(ix, found)
    && (forall i :: 0 <= i < |found| ==> SlotOf(found[i].0) == slot)
    && (forall id :: id in ix.rows && SlotOf(id) == slot ==> exists i :: 0 <= i < |found| && found[i].0 == id)
  }

  /** `add_session_to_memory`: purge, then insert. */
  function AddSessionOps(ix: Index, slot: Slot, found: seq<(RowId, Row)>, events: seq<MemoryEvent>): seq<Op> {
    var purge := PurgeOps(found);
    purge + InsertAllOps(Exec(ix, purge), slot, events, false)
  }

  /** `add_events_to_memory`. */
  function AddEventsOps(ix: Index, slot: Slot, events: seq<MemoryEvent>): seq<Op> {
    InsertAllOps(ix, slot, events, true)
  }

  // ---- the crash invariant -------------------------------------------------------------------

  /** A reference that a search will follow. */
  predicate Names(ref: Ref) {
    ref.event != ""
  }

  predicate Points(ix: Index, list: ListId, ref: Ref) {
    var id := RowOf(list, ref);
    id in ix.rows && list.token in ix.rows[id].keywords && ix.rows[id].ts == ref.ts
  }

  /** Every reference points to an existing row that has the token among its keywords. */
  ghost predicate Sound(ix: Index) {
    forall list, ref :: ref in Posts(ix, list) && Names(ref) ==> Points(ix, list, ref)
  }

  /** When a write is safe: rows come before their refs and leave after them. */
  ghost predicate SafeOp(ix: Index, op: Op) {
    match op
    case PutRow(id, _) => id !in ix.rows
    case AppendRef(list, ref) => Names(ref) ==> Points(ix, list, ref)
    case TrimFront(_, _) => true
    case RemoveRefs(_, _) => true
    case RemoveRow(id) => forall list, ref :: ref in Posts(ix, list) && Names(ref) ==> RowOf(list, ref) != id
  }

  ghost predicate SafeProgram(ix: Index, ops: seq<Op>)
    decreases |ops|
  {
    ops == [] || (SafeOp(ix, ops[0]) && SafeProgram(Do(ix, ops[0]), ops[1..]))
  }

  /** A reference found after a write was there before, or the write appended it. */
  lemma RefsComeFrom(ix: Index, op: Op, list: ListId, ref: Ref)
    requires ref in Posts(Do(ix, op), list)
    ensures ref in Posts(ix, list) || op == AppendRef(list, ref)
  {
    if op.RemoveRefs? && list == op.list && list in ix.postings {
      DropKeepsOthers(ix.postings[list], op.ref);
      assert ref in multiset(Drop(ix.postings[list], op.ref));
    }
  }

  lemma SafeOpKeepsSound(ix: Index, op: Op)
    requires Sound(ix) && SafeOp(ix, op)
    ensures Sound(Do(ix, op))
  {
    forall list, ref | ref in Posts(Do(ix, op), list) && Names(ref) ensures Points(Do(ix, op), list, ref) {
      RefsComeFrom(ix, op, list, ref);
      assert Points(ix, list, ref);
    }
  }

  lemma {:induction false} SafeProgramsConcat(ix: Index, a: seq<Op>, b: seq<Op>)
    requires SafeProgram(ix, a) && SafeProgram(Exec(ix, a), b)
    ensures SafeProgram(ix, a + b)
    decreases |a|
  {
    if a == [] {
      assert a + b == b;
    } else {
      assert (a + b)[1..] == a[1..] + b;
      SafeProgramsConcat(Do(ix, a[0]), a[1..], b);
    }
  }

  /** After every single write of a safe program the index is sound. */
  lemma {:induction false} SoundAtEveryCrash(ix: Index, ops: seq<Op>, n: nat)
    requires Sound(ix) && SafeProgram(ix, ops) && n <= |ops|
    ensures Sound(Exec(ix, ops[..n]))
    decreases n
  {
    if n > 0 {
      SafeOpKeepsSound(ix, ops[0]);
      assert ops[..n][1..] == ops[1..][..n - 1];
      SoundAtEveryCrash(Do(ix, ops[0]), ops[1..], n - 1);
    }
  }

  // ---- inserting -----------------------------------------------------------------------------

  /** A posting list after one `_append_posting_ref`: the oldest refs go first. */
  function Appended(refs: seq<Ref>, ref: Ref): seq<Ref> {
    if |refs| < MAX_POSTING_LIST_SIZE then refs + [ref] else (refs + [ref])[|refs| + 1 - MAX_POSTING_LIST_SIZE..]
  }

  lemma AppendEffect(ix: Index, list: ListId, ref: Ref)
    ensures var after := Exec(ix, AppendOps(ix, list, ref));
            after.rows == ix.rows
            && (forall l :: l != list ==> Posts(after, l) == Posts(ix, l))
            && Posts(after, list) == Appended(Posts(ix, list), ref)
  {
    var ops := AppendOps(ix, list, ref);
    var one := Do(ix, ops[0]);
    if |ops| == 1 {
      assert ops[1..] == [];
    } else {
      assert ops[1..] == [ops[1]] && ops[1..][1..] == [];
      assert Exec(one, ops[1..]) == Exec(Do(one, ops[1]), []);
    }
  }

  lemma AppendIsSafe(ix: Index, list: ListId, ref: Ref)
    requires Names(ref) ==> Points(ix, list, ref)
    ensures SafeProgram(ix, AppendOps(ix, list, ref))
  {
    var ops := AppendOps(ix, list, ref);
    if |ops| > 1 {
      assert ops[1..] == [ops[1]] && ops[1..][1..] == [];
    }
  }

  lemma {:induction false} RefsEffect(ix: Index, id: RowId, ref: Ref, tokens: seq<string>)
    requires Distinct(tokens)
    ensures var after := Exec(ix, RefsOps(ix, id, ref, tokens));
            after.rows == ix.rows
            && forall l :: Posts(after, l) == if l.app == id.app && l.user == id.user && l.token in tokens
                                              then Appended(Posts(ix, l), ref) else Posts(ix, l)
    decreases |tokens|
  {
    if tokens != [] {
      var first := AppendOps(ix, ListOf(id, tokens[0]), ref);
      AppendEffect(ix, ListOf(id, tokens[0]), ref);
      RefsEffect(Exec(ix, first), id, ref, tokens[1..]);
      ExecSplits(ix, first, RefsOps(Exec(ix, first), id, ref, tokens[1..]));
      assert tokens == [tokens[0]] + tokens[1..];
      assert tokens[0] !in tokens[1..];
    }
  }

  lemma {:induction false} RefsAreSafe(ix: Index, id: RowId, ref: Ref, tokens: seq<string>)
    requires forall t :: t in tokens && Names(ref) ==> Points(ix, ListOf(id, t), ref)
    ensures SafeProgram(ix, RefsOps(ix, id, ref, tokens))
    decreases |tokens|
  {
    if tokens != [] {
      var first := AppendOps(ix, ListOf(id, tokens[0]), ref);
      AppendIsSafe(ix, ListOf(id, tokens[0]), ref);
      AppendEffect(ix, ListOf(id, tokens[0]), ref);
      RefsAreSafe(Exec(ix, first), id, ref, tokens[1..]);
      SafeProgramsConcat(ix, first, RefsOps(Exec(ix, first), id, ref, tokens[1..]));
    }
  }

  lemma InsertEffect(ix: Index, id: RowId, row: Row)
    requires Distinct(row.keywords)
    ensures var after := Exec(ix, InsertOps(ix, id, row));
            after.rows == ix.rows[id := row]
            && forall l :: Posts(after, l) == if l.app == id.app && l.user == id.user && l.token in row.keywords
                                              then Appended(Posts(ix, l), RefOf(id, row)) else Posts(ix, l)
  {
    var put := Do(ix, PutRow(id, row));
    assert InsertOps(ix, id, row)[1..] == RefsOps(put, id, RefOf(id, row), row.keywords);
    RefsEffect(put, id, RefOf(id, row), row.keywords);
  }

  lemma InsertIsSafe(ix: Index, id: RowId, row: Row)
    requires id !in ix.rows
    ensures SafeProgram(ix, InsertOps(ix, id, row))
  {
    var put := Do(ix, PutRow(id, row));
    assert InsertOps(ix, id, row)[1..] == RefsOps(put, id, RefOf(id, row), row.keywords);
    RefsAreSafe(put, id, RefOf(id, row), row.keywords);
  }

  // ---- purging -------------------------------------------------------------------------------

  lemma {:induction false} RemoveRefsEffect(ix: Index, id: RowId, ref: Ref, tokens: seq<string>)
    ensures var after := Exec(ix, RemoveRefsOps(id, ref, tokens));
            after.rows == ix.rows
            && forall l :: Posts(after, l) == if l.app == id.app && l.user == id.user && l.token in tokens
                                              then Drop(Posts(ix, l), ref) else Posts(ix, l)
    decreases |tokens|
  {
    if tokens != [] {
      var one := Do(ix, RemoveRefs(ListOf(id, tokens[0]), ref));
      assert RemoveRefsOps(id, ref, tokens)[1..] == RemoveRefsOps(id, ref, tokens[1..]);
      RemoveRefsEffect(one, id, ref, tokens[1..]);
      forall l: ListId | l.token in tokens ensures Drop(Drop(Posts(ix, l), ref), ref) == Drop(Posts(ix, l), ref) {
        DropTwice(Posts(ix, l), ref);
      }
      assert tokens == [tokens[0]] + tokens[1..];
    }
  }

  lemma {:induction false} DropTwice(refs: seq<Ref>, ref: Ref)
    ensures Drop(Drop(refs, ref), ref) == Drop(refs, ref)
  {
    if refs != [] {
      DropTwice(refs[1..], ref);
    }
  }

  lemma {:induction false} RemoveRefsAreSafe(ix: Index, id: RowId, ref: Ref, tokens: seq<string>)
    ensures SafeProgram(ix, RemoveRefsOps(id, ref, tokens))
    decreases |tokens|
  {
    if tokens != [] {
      assert RemoveRefsOps(id, ref, tokens)[1..] == RemoveRefsOps(id, ref, tokens[1..]);
      RemoveRefsAreSafe(Do(ix, RemoveRefs(ListOf(id, tokens[0]), ref)), id, ref, tokens[1..]);
    }
  }

  /** One turn of the purge loop, when the row read by the query is still the stored one. */
  lemma PurgeRowIsSafe(ix: Index, id: RowId)
    requires Sound(ix) && id in ix.rows
    ensures SafeProgram(ix, PurgeRowOps(id, ix.rows[id]))
    ensures Exec(ix, PurgeRowOps(id, ix.rows[id])).rows == ix.rows - {id}
  {
    hide SafeOp;
    var row := ix.rows[id];
    var ref := RefOf(id, row);
    var strip := if id.event != "" then RemoveRefsOps(id, ref, row.keywords) else [];
    var mid := Exec(ix, strip);
    RemoveRefsAreSafe(ix, id, ref, row.keywords);
    RemoveRefsEffect(ix, id, ref, row.keywords);
    StrippedRowIsFree(ix, id, mid);
    assert Exec(mid, [RemoveRow(id)]) == Do(mid, RemoveRow(id));
    assert SafeProgram(mid, [RemoveRow(id)]);
    SafeProgramsConcat(ix, strip, [RemoveRow(id)]);
    ExecSplits(ix, strip, [RemoveRow(id)]);
  }

  /** Soundness names every list that can hold the row's ref, so none is left behind. */
  lemma StrippedRowIsFree(ix: Index, id: RowId, mid: Index)
    requires Sound(ix) && id in ix.rows
    requires var ref := RefOf(id, ix.rows[id]);
             if id.event == "" then mid == ix
             else forall l :: Posts(mid, l) == if l.app == id.app && l.user == id.user && l.token in ix.rows[id].keywords
                                               then Drop(Posts(ix, l), ref) else Posts(ix, l)
    ensures SafeOp(mid, RemoveRow(id))
  {
    forall list, ref | ref in Posts(mid, list) && Names(ref) ensures RowOf(list, ref) != id {
      DropKeepsOthers(Posts(ix, list), RefOf(id, ix.rows[id]));
      assert ref in multiset(Posts(mid, list));
      assert ref in multiset(Posts(ix, list));
      assert Points(ix, list, ref);
    }
  }

  lemma {:induction false} PurgeIsSafe(ix: Index, found: seq<(RowId, Row)>)
    requires Sound(ix) && AsStored(ix, found)
    ensures SafeProgram(ix, PurgeOps(found))
    ensures Exec(ix, PurgeOps(found)).rows == ix.rows - set i | 0 <= i < |found| :: found[i].0
    decreases |found|
  {
    hide SafeProgram, PurgeRowOps;
    if found == [] {
      assert SafeProgram(ix, []) by { EmptyIsSafe(ix); }
    } else {
      var turn := PurgeRowOps(found[0].0, found[0].1);
      var next := Exec(ix, turn);
      PurgeRowIsSafe(ix, found[0].0);
      SafeProgramKeepsSound(ix, turn);
      PurgeIsSafe(next, found[1..]);
      SafeProgramsConcat(ix, turn, PurgeOps(found[1..]));
      ExecSplits(ix, turn, PurgeOps(found[1..]));
      assert found == [found[0]] + found[1..];
    }
  }

  lemma EmptyIsSafe(ix: Index)
    ensures SafeProgram(ix, [])
  {
  }

  lemma SafeProgramKeepsSound(ix: Index, ops: seq<Op>)
    requires Sound(ix) && SafeProgram(ix, ops)
    ensures Sound(Exec(ix, ops))
  {
    SoundAtEveryCrash(ix, ops, |ops|);
    assert ops[..|ops|] == ops;
  }
}
