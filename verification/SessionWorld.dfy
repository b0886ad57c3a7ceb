/** What the session service stores, as values, and what whole runs of its operations mean. */
module SessionWorld {
  import opened Options
  import opened Segments
  import opened SegmentGaps
  import opened SegmentLog
  import opened ScopedState
  import Text
  import EventKeys

  datatype SessionId = SessionId(app: string, user: string, session: string)

  /** A session record with its segments. */
  datatype Session = Session(state: Dict, lastUpdate: nat, log: Log)

  datatype World = World(
    sessions: map<SessionId, Session>,
    app: map<string, Dict>,
    user: map<(string, string), Dict>)

  const EMPTY_WORLD := World(map[], map[], map[])

  /** A missing state record reads as empty. */
  function Scoped<K>(states: map<K, Dict>, k: K): Dict {
    if k in states then states[k] else map[]
  }

  /** `map_put_items`, not called for an empty delta. */
  function PutItems<K>(states: map<K, Dict>, k: K, delta: Dict): map<K, Dict> {
    if delta == map[] then states else states[k := Scoped(states, k) + delta]
  }

  function BareState(w: World, id: SessionId): Dict {
    if id in w.sessions then w.sessions[id].state else map[]
  }

  /** The one dict a caller sees. */
  function View(w: World, id: SessionId): Dict {
    Merge(Scoped(w.app, id.app), Scoped(w.user, (id.app, id.user)), BareState(w, id))
  }

  function WithScoped(w: World, id: SessionId, p: Parts): World {
    w.(app := PutItems(w.app, id.app, p.app), user := PutItems(w.user, (id.app, id.user), p.user))
  }

  function CreateIn(w: World, id: SessionId, state: Dict, now: nat): World
    requires id !in w.sessions
  {
    var p := Partition(state);
    WithScoped(w.(sessions := w.sessions[id := Session(p.session, now, [[]])]), id, p)
  }

  function UsesBatch(p: Parts): bool {
    p.session != map[] || p.app != map[] || p.user != map[]
  }

  /** An append from segment index n; the state part is stored even when the event is refused. */
  function AppendIn(w: World, cap: nat, id: SessionId, n: nat, e: Entry, delta: Dict): World
    requires id in w.sessions && n < |w.sessions[id].log|
  {
    var s := w.sessions[id];
    var p := Partition(delta);
    var placed := AppendAt(cap, s.log, n, e, UsesBatch(p));
    var lastUpdate := if p.session == map[] then s.lastUpdate else e.at;
    WithScoped(w.(sessions := w.sessions[id := Session(s.state + p.session, lastUpdate, placed.log)]), id, p)
  }

  function DeleteIn(w: World, id: SessionId): World {
    w.(sessions := w.sessions - {id})
  }

  // ---- runs ---------------------------------------------------------------------------

  datatype Op =
    | Create(id: SessionId, state: Dict, now: nat)
    | Append(id: SessionId, entry: Entry, delta: Dict)
    | Delete(id: SessionId)

  /** One operation by an up-to-date process; a second create of a session is refused. */
  function Apply(w: World, cap: nat, op: Op): World
    requires op.Append? ==> op.id in w.sessions
  {
    match op
    case Create(id, state, now) => if id in w.sessions then w else CreateIn(w, id, state, now)
    case Append(id, e, delta) => AppendIn(w, cap, id, Cur(w.sessions[id].log), e, delta)
    case Delete(id) => DeleteIn(w, id)
  }

  function Init<T>(s: seq<T>): seq<T>
    requires s != []
  {
    s[..|s| - 1]
  }

  function Last<T>(s: seq<T>): T
    requires s != []
  {
    s[|s| - 1]
  }

  /** Is the session there after these operations? */
  predicate Live(ops: seq<Op>, id: SessionId) {
    ops != [] &&
    match Last(ops)
    case Create(i, _, _) => i == id || Live(Init(ops), id)
    case Append(_, _, _) => Live(Init(ops), id)
    case Delete(i) => i != id && Live(Init(ops), id)
  }

  /** Events are appended to live sessions only. */
  predicate Legal(ops: seq<Op>) {
    ops == [] || (Legal(Init(ops)) && (Last(ops).Append? ==> Live(Init(ops), Last(ops).id)))
  }

  function Run(cap: nat, ops: seq<Op>): (w: World)
    requires Legal(ops)
    ensures forall id :: id in w.sessions <==> Live(ops, id)
  {
    if ops == [] then EMPTY_WORLD else Apply(Run(cap, Init(ops)), cap, Last(ops))
  }

  // ---- one dict per reader -----------------------------------------------------------

  /** The part of a writer's delta that a reader sees. */
  function VisibleTo(writer: SessionId, reader: SessionId, delta: Dict): Dict {
    Reaching(delta, writer.app == reader.app, writer.app == reader.app && writer.user == reader.user, writer == reader)
  }

  /** The plain dict of a session: the fold of what it sees of every write. */
  function DictOf(ops: seq<Op>, id: SessionId): Dict {
    if ops == [] then map[]
    else
      var before := DictOf(Init(ops), id);
      match Last(ops)
      case Create(i, state, _) => if Live(Init(ops), i) then before else before + VisibleTo(i, id, state)
      case Append(i, _, delta) => before + VisibleTo(i, id, delta)
      case Delete(i) => if i == id then Reaching(before, true, true, false) else before
  }

  lemma PutItemsIsUpdate<K>(states: map<K, Dict>, k: K, j: K, delta: Dict)
    ensures Scoped(PutItems(states, k, delta), j) == Scoped(states, j) + OnlyIf(k == j, delta)
  {
    assert Scoped(states, j) + map[] == Scoped(states, j);
  }

  predicate BareSessions(w: World) {
    forall id :: id in w.sessions ==> AllBare(w.sessions[id].state)
  }

  function Write(w: World, writer: SessionId, s: Session, delta: Dict): World {
    WithScoped(w.(sessions := w.sessions[writer := s]), writer, Partition(delta))
  }

  /** The writer's session after a write of its own part of a delta. */
  function Updated(w: World, writer: SessionId, delta: Dict, time: nat, log: Log): Session {
    Session(BareState(w, writer) + Partition(delta).session, time, log)
  }

  lemma WriteKeepsBareSessions(w: World, writer: SessionId, delta: Dict, time: nat, log: Log)
    requires BareSessions(w)
    ensures BareSessions(Write(w, writer, Updated(w, writer, delta, time, log), delta))
  {
    hide AllBare, Partition, BareState, PutItems;
    BareStateIsBare(w, writer);
    StaysBare(BareState(w, writer), delta);
  }

  /** How a write changes each of the three records a reader merges. */
  lemma WriteReaches(w: World, writer: SessionId, delta: Dict, time: nat, log: Log, reader: SessionId)
    ensures var t, p := Write(w, writer, Updated(w, writer, delta, time, log), delta), Partition(delta);
            && Scoped(t.app, reader.app) == Scoped(w.app, reader.app) + OnlyIf(writer.app == reader.app, p.app)
            && Scoped(t.user, (reader.app, reader.user)) == Scoped(w.user, (reader.app, reader.user))
                 + OnlyIf(writer.app == reader.app && writer.user == reader.user, p.user)
            && BareState(t, reader) == BareState(w, reader) + OnlyIf(writer == reader, p.session)
  {
    var p := Partition(delta);
    hide Partition;
    PutItemsIsUpdate(w.app, writer.app, reader.app, p.app);
    PutItemsIsUpdate(w.user, (writer.app, writer.user), (reader.app, reader.user), p.user);
    hide PutItems, Scoped;
    assert BareState(w, reader) + map[] == BareState(w, reader);
  }

  lemma BareStateIsBare(w: World, id: SessionId)
    requires BareSessions(w)
    ensures AllBare(BareState(w, id))
  {
    hide ScopeOf;
  }

  /** A state write of one session, as every session sees it. */
  lemma WriteIsVisible(w: World, writer: SessionId, delta: Dict, time: nat, log: Log, reader: SessionId)
    requires BareSessions(w)
    ensures var t := Write(w, writer, Updated(w, writer, delta, time, log), delta);
            BareSessions(t) && View(t, reader) == View(w, reader) + VisibleTo(writer, reader, delta)
  {
    hide Merge, Partition, AllBare, Reaching, OnlyIf, PutItems, Scoped, BareState, Write, BareSessions, Updated;
    WriteKeepsBareSessions(w, writer, delta, time, log);
    WriteReaches(w, writer, delta, time, log, reader);
    BareStateIsBare(w, reader);
    MergeAfterPartition(Scoped(w.app, reader.app), Scoped(w.user, (reader.app, reader.user)), BareState(w, reader), delta,
                        writer.app == reader.app, writer.app == reader.app && writer.user == reader.user, writer == reader);
  }

  lemma DropBareState(app: Dict, user: Dict, session: Dict)
    requires AllBare(session)
    ensures Merge(app, user, map[]) == Reaching(Merge(app, user, session), true, true, false)
  {
    hide Prefixed;
    var left, right := Merge(app, user, map[]), Reaching(Merge(app, user, session), true, true, false);
    forall k ensures SameAt(left, right, k) {
      hide Merge;
      MergedAt(app, user, session, k);
      MergedAt(app, user, map[], k);
    }
    SameEverywhere(left, right);
  }

  /**
   * Over any run of creates, appends and deletes by many apps, users and sessions, the view of
   * each session is the fold of exactly the writes in scope for it.
   */
  lemma {:induction false} ViewRefinesDict(cap: nat, ops: seq<Op>, id: SessionId)
    requires Legal(ops)
    ensures BareSessions(Run(cap, ops))
    ensures View(Run(cap, ops), id) == DictOf(ops, id)
  {
    if ops == [] {
      NothingToMerge();
    } else {
      var w, op := Run(cap, Init(ops)), Last(ops);
      ViewRefinesDict(cap, Init(ops), id);
      StepIsVisible(w, cap, op, id);
    }
  }

  lemma StepIsVisible(w: World, cap: nat, op: Op, id: SessionId)
    requires BareSessions(w) && (op.Append? ==> op.id in w.sessions)
    ensures BareSessions(Apply(w, cap, op))
    ensures View(Apply(w, cap, op), id) ==
            match op
            case Create(i, state, _) => if i in w.sessions then View(w, id) else View(w, id) + VisibleTo(i, id, state)
            case Append(i, _, delta) => View(w, id) + VisibleTo(i, id, delta)
            case Delete(i) => if i == id then Reaching(View(w, id), true, true, false) else View(w, id)
  {
    hide Merge, Partition, AllBare, Reaching, AppendAt, VisibleTo;
    match op
    case Create(i, state, now) =>
      if i !in w.sessions {
        assert map[] + Partition(state).session == Partition(state).session;
        WriteIsVisible(w, i, state, now, [[]], id);
      }
    case Append(i, e, delta) =>
      var s := w.sessions[i];
      var p := Partition(delta);
      var placed := AppendAt(cap, s.log, Cur(s.log), e, UsesBatch(p));
      var lastUpdate := if p.session == map[] then s.lastUpdate else e.at;
      WriteIsVisible(w, i, delta, lastUpdate, placed.log, id);
    case Delete(i) =>
      if i == id {
        NoBareKeys();
        DropBareState(Scoped(w.app, id.app), Scoped(w.user, (id.app, id.user)), BareState(w, id));
      }
  }

  lemma NoBareKeys()
    ensures AllBare(map[])
  {
  }

  // ---- who sees a key --------------------------------------------------------------------------

  predicate BareKey(k: string) {
    !("app:" <= k) && !("user:" <= k) && !("temp:" <= k)
  }

  lemma ScopeOfKey(k: string)
    ensures ScopeOf(k).Temporary? <==> "temp:" <= k
    ensures ScopeOf(k).OfApp? <==> "app:" <= k
    ensures ScopeOf(k).OfUser? <==> "user:" <= k
    ensures ScopeOf(k).OfSession? <==> BareKey(k)
  {
    assert "temp:" <= k || "app:" <= k || "user:" <= k ==> k != "";
    assert "temp:" <= k ==> k[0] == 't';
    assert "app:" <= k ==> k[0] == 'a';
    assert "user:" <= k ==> k[0] == 'u';
  }

  /** A key written with a prefix is seen by the users of the app, by the user, or by nobody; a bare one by the session. */
  predicate Sees(writer: SessionId, reader: SessionId, k: string) {
    || ("app:" <= k && writer.app == reader.app)
    || ("user:" <= k && writer.app == reader.app && writer.user == reader.user)
    || (BareKey(k) && writer == reader)
  }

  lemma VisibleIffSees(writer: SessionId, reader: SessionId, delta: Dict, k: string)
    ensures k in VisibleTo(writer, reader, delta) <==> k in delta && Sees(writer, reader, k)
    ensures k in VisibleTo(writer, reader, delta) ==> VisibleTo(writer, reader, delta)[k] == delta[k]
  {
    hide ScopeOf;
    ScopeOfKey(k);
  }

  /** After any run, a write changes the view of exactly those who see the key, and of them that key only. */
  lemma WhoSees(cap: nat, ops: seq<Op>, writer: SessionId, e: Entry, delta: Dict, reader: SessionId, k: string)
    requires Legal(ops) && Live(ops, writer)
    ensures var after := ops + [Append(writer, e, delta)];
            var v, w := View(Run(cap, ops), reader), View(Run(cap, after), reader);
            && Legal(after)
            && (if k in delta && Sees(writer, reader, k) then k in w && w[k] == delta[k] else (k in w <==> k in v) && (k in v ==> w[k] == v[k]))
  {
    hide View, Run, Sees, VisibleTo, BareSessions;
    var after := ops + [Append(writer, e, delta)];
    assert Init(after) == ops && Last(after) == Append(writer, e, delta);
    ViewRefinesDict(cap, ops, reader);
    ViewRefinesDict(cap, after, reader);
    VisibleIffSees(writer, reader, delta, k);
  }

  /** A state delta takes the batch path exactly when some key of it is not temporary. */
  lemma BatchIffStored(delta: Dict)
    ensures UsesBatch(Partition(delta)) <==> exists k :: k in delta && !("temp:" <= k)
    ensures Partition(delta).session != map[] <==> exists k :: k in delta && BareKey(k)
  {
    hide ScopeOf, Unprefixed;
    var p := Partition(delta);
    forall k | k in delta ensures ("app:" <= k ==> k[4..] in p.app) && ("user:" <= k ==> k[5..] in p.user) && (BareKey(k) ==> k in p.session) {
      ScopeOfKey(k);
      if "app:" <= k {
        assert k == "app:" + k[4..];
        UnprefixedAt("app:", delta, k[4..]);
      }
      if "user:" <= k {
        assert k == "user:" + k[5..];
        UnprefixedAt("user:", delta, k[5..]);
      }
    }
    forall j | j in p.app ensures "app:" + j in delta && "app:" <= "app:" + j && !("temp:" <= "app:" + j) {
      UnprefixedAt("app:", delta, j);
      ScopeOfKey("app:" + j);
    }
    forall j | j in p.user ensures "user:" + j in delta && "user:" <= "user:" + j && !("temp:" <= "user:" + j) {
      UnprefixedAt("user:", delta, j);
      ScopeOfKey("user:" + j);
    }
    forall k | k in p.session ensures k in delta && BareKey(k) {
      ScopeOfKey(k);
    }
    if p.session != map[] {
      var k :| k in p.session;
    }
    if p.app != map[] {
      var j :| j in p.app;
      assert "app:" + j in delta;
    }
    if p.user != map[] {
      var j :| j in p.user;
      assert "user:" + j in delta;
    }
  }

  // ---- the time of a session -------------------------------------------------------------------

  /** When the session was created, or last written by an append with a key of its own. */
  ghost function UpdatedAt(ops: seq<Op>, id: SessionId): nat {
    if ops == [] then 0
    else
      var before := UpdatedAt(Init(ops), id);
      match Last(ops)
      case Create(i, _, now) => if i == id && !Live(Init(ops), i) then now else before
      case Append(i, e, delta) => if i == id && exists k :: k in delta && BareKey(k) then e.at else before
      case Delete(_) => before
  }

  lemma {:induction false} LastUpdateIsUpdatedAt(cap: nat, ops: seq<Op>, id: SessionId)
    requires Legal(ops) && Live(ops, id)
    ensures Run(cap, ops).sessions[id].lastUpdate == UpdatedAt(ops, id)
  {
    hide Partition, AppendAt, BareKey;
    var before, op := Init(ops), Last(ops);
    if Live(before, id) {
      LastUpdateIsUpdatedAt(cap, before, id);
    }
    if op.Append? {
      BatchIffStored(op.delta);
    }
  }

  // ---- one list per session ------------------------------------------------------------

  /** The plain list of a session: what was appended since it was created and fits a record. */
  function ListOf(cap: nat, ops: seq<Op>, id: SessionId): Segment {
    if ops == [] then []
    else
      var before := ListOf(cap, Init(ops), id);
      match Last(ops)
      case Create(i, _, _) => if i == id && !Live(Init(ops), i) then [] else before
      case Append(i, e, _) => if i == id && e.event.size <= cap then before + [e] else before
      case Delete(i) => if i == id then [] else before
  }

  /** The gaps that rejected events left in a session's log, computed from the operations alone. */
  function GapOf(cap: nat, ops: seq<Op>, id: SessionId): Gap {
    if ops == [] then NO_EVENTS
    else
      var before := GapOf(cap, Init(ops), id);
      match Last(ops)
      case Create(i, _, _) => if i == id && !Live(Init(ops), i) then NO_EVENTS else before
      case Append(i, e, delta) =>
        if i != id then before
        else AfterAppend(before, |ListOf(cap, Init(ops), id)|, e.event.size <= cap, UsesBatch(Partition(delta)))
      case Delete(i) => if i == id then NO_EVENTS else before
  }

  /** The keys of stored events increase within each session; rejected events may come anywhere. */
  ghost predicate Orderly(cap: nat, ops: seq<Op>) {
    ops == [] ||
    (Orderly(cap, Init(ops)) &&
     match Last(ops)
     case Append(i, e, _) => e.event.size <= cap ==> AllBefore(ListOf(cap, Init(ops), i), e.Key())
     case _ => true)
  }

  /** Every event fits a record. */
  predicate NoneRejected(cap: nat, ops: seq<Op>) {
    forall i :: 0 <= i < |ops| && ops[i].Append? ==> ops[i].entry.event.size <= cap
  }

  /** The log of a session holds exactly its list, with exactly the gaps its rejected events left. */
  lemma {:induction false} LogRefinesList(cap: nat, ops: seq<Op>, id: SessionId)
    requires Legal(ops) && Orderly(cap, ops) && Live(ops, id)
    ensures var log := Run(cap, ops).sessions[id].log; History(log) == ListOf(cap, ops, id) && Gapped(log, GapOf(cap, ops, id))
  {
    var before, op := Init(ops), Last(ops);
    hide Partition, Gapped, AllBefore;
    if Live(before, id) {
      LogRefinesList(cap, before, id);
      if op.Append? && op.id == id {
        AppendKeepsGapped(cap, Run(cap, before).sessions[id].log, GapOf(cap, before, id), op.entry, UsesBatch(Partition(op.delta)));
        assert ListOf(cap, before, id) + [] == ListOf(cap, before, id);
      }
    } else {
      EmptyLogIsGapped();
    }
  }

  /** A query of the plain list, less the events that its gaps hide from a cutoff. */
  ghost predicate ReadsAs(cap: nat, ops: seq<Op>, id: SessionId, config: ReadConfig, events: Segment) {
    var list, gap := ListOf(cap, ops, id), GapOf(cap, ops, id);
    gap.sealed <= |list| && events == Query(Reachable(list, gap, config.after), config)
  }

  /**
   * End to end: what a read returns after any orderly run, with rejected events in it, on the
   * operate path or the batch path.
   */
  lemma ReadOfRun(cap: nat, ops: seq<Op>, id: SessionId, config: ReadConfig)
    requires Legal(ops) && Orderly(cap, ops) && Live(ops, id)
    ensures ReadsAs(cap, ops, id, config, Answer(Run(cap, ops).sessions[id].log, config))
  {
    hide Answer, Matching, ListOf, GapOf, Gapped;
    LogRefinesList(cap, ops, id);
    AnswerOfGappedLog(Run(cap, ops).sessions[id].log, GapOf(cap, ops, id), config);
  }

  /** A read without a cutoff is always that of the plain list: all of it, or its last N. */
  lemma UnfilteredReadIsExact(cap: nat, ops: seq<Op>, id: SessionId, numRecent: Option<nat>)
    requires Legal(ops) && Orderly(cap, ops) && Live(ops, id)
    ensures Answer(Run(cap, ops).sessions[id].log, ReadConfig(numRecent, None)) == TakeLast(numRecent, ListOf(cap, ops, id))
  {
    hide Answer, ListOf, GapOf;
    ReadOfRun(cap, ops, id, ReadConfig(numRecent, None));
    MatchingAll(ListOf(cap, ops, id));
  }

  /**
   * A read is that of the plain list if and only if it has no cutoff, or nothing is hidden, or the
   * newest hidden event is before the cutoff, or no more events are asked for than are in reach.
   */
  lemma ReadIsExactIff(cap: nat, ops: seq<Op>, id: SessionId, config: ReadConfig)
    requires Legal(ops) && Orderly(cap, ops) && Live(ops, id)
    ensures var list := ListOf(cap, ops, id);
            var h := Hidden(GapOf(cap, ops, id), |list|);
            h <= |list| &&
            (Answer(Run(cap, ops).sessions[id].log, config) == Query(list, config)
             <==> config.after.None? || h == 0
                  || !EventKeys.InRange(EventKeys.CutoffKey(config.after.value), list[h - 1].Key())
                  || (config.numRecent.Some? && config.numRecent.value <= |list| - h))
  {
    hide Answer, ListOf, GapOf, Query, Reachable, Gapped, Sorted, Orderly, Run, EventKeys.InRange, EventKeys.CutoffKey, EventKeys.EventMapKey;
    LogRefinesList(cap, ops, id);
    GappedIsSorted(Run(cap, ops).sessions[id].log, GapOf(cap, ops, id));
    ReadOfRun(cap, ops, id, config);
    ReachableIsExactIff(ListOf(cap, ops, id), GapOf(cap, ops, id), config);
  }

  /** The same in times of up to twenty digits: the cutoff is a comparison of times. */
  lemma CutoffReadIsExactIff(cap: nat, ops: seq<Op>, id: SessionId, numRecent: Option<nat>, cutoff: nat)
    requires Legal(ops) && Orderly(cap, ops) && Live(ops, id)
    requires cutoff < 100_000_000_000_000_000_000
    requires forall i :: 0 <= i < |ListOf(cap, ops, id)| ==> ListOf(cap, ops, id)[i].at < 100_000_000_000_000_000_000
    ensures var list := ListOf(cap, ops, id);
            var h := Hidden(GapOf(cap, ops, id), |list|);
            h <= |list| &&
            (Answer(Run(cap, ops).sessions[id].log, ReadConfig(numRecent, Some(cutoff))) == TakeLast(numRecent, Since(list, cutoff))
             <==> h == 0 || list[h - 1].at < cutoff || (numRecent.Some? && numRecent.value <= |list| - h))
  {
    hide Answer, Matching, ListOf, GapOf, Hidden, Since, Run, EventKeys.InRange, EventKeys.CutoffKey, EventKeys.EventMapKey;
    var list := ListOf(cap, ops, id);
    ReadIsExactIff(cap, ops, id, ReadConfig(numRecent, Some(cutoff)));
    MatchingIsSince(list, cutoff);
    var h := Hidden(GapOf(cap, ops, id), |list|);
    if h > 0 {
      EventKeys.CutoffSelects(cutoff, list[h - 1].at, list[h - 1].event.id);
      assert list[h - 1].Key() == EventKeys.EventMapKey(list[h - 1].at, list[h - 1].event.id);
    }
  }

  lemma GappedIsSorted(log: Log, gap: Gap)
    requires Gapped(log, gap)
    ensures Sorted(History(log))
  {
  }

  lemma {:induction false} SealedIsStored(cap: nat, ops: seq<Op>, id: SessionId)
    ensures GapOf(cap, ops, id).sealed <= |ListOf(cap, ops, id)|
  {
    if ops != [] {
      SealedIsStored(cap, Init(ops), id);
    }
  }

  /** What a gap hides it hides for good: until the session is deleted no later operation undoes it. */
  lemma {:induction false} GapsAreForGood(cap: nat, ops: seq<Op>, more: seq<Op>, id: SessionId)
    requires Live(ops, id) && Delete(id) !in more
    ensures Live(ops + more, id) && GapOf(cap, ops, id).sealed <= GapOf(cap, ops + more, id).sealed
    decreases |more|
  {
    if more == [] {
      assert ops + more == ops;
    } else {
      var all := ops + more;
      assert Init(all) == ops + Init(more) && Last(all) == Last(more) && Last(more) in more;
      GapsAreForGood(cap, ops, Init(more), id);
      SealedIsStored(cap, Init(all), id);
    }
  }

  /** Without rejected events nothing is ever hidden ... */
  lemma {:induction false} NoGapWithoutRejection(cap: nat, ops: seq<Op>, id: SessionId)
    requires NoneRejected(cap, ops)
    ensures Hidden(GapOf(cap, ops, id), |ListOf(cap, ops, id)|) == 0
    ensures GapOf(cap, ops, id).sealed == 0
  {
    if ops != [] {
      assert Last(ops) == ops[|ops| - 1];
      NoGapWithoutRejection(cap, Init(ops), id);
    }
  }

  /** ... so every read is that of the plain list. */
  lemma ReadRefinesQuery(cap: nat, ops: seq<Op>, id: SessionId, config: ReadConfig)
    requires Legal(ops) && Orderly(cap, ops) && Live(ops, id) && NoneRejected(cap, ops)
    ensures Answer(Run(cap, ops).sessions[id].log, config) == Query(ListOf(cap, ops, id), config)
  {
    hide Answer, ListOf, GapOf, Query;
    ReadOfRun(cap, ops, id, config);
    NoGapWithoutRejection(cap, ops, id);
    assert ListOf(cap, ops, id)[0..] == ListOf(cap, ops, id);
  }

  /** In times: the part from the cutoff, or its last N. */
  lemma ReadRefinesTimeQuery(cap: nat, ops: seq<Op>, id: SessionId, numRecent: Option<nat>, cutoff: nat)
    requires Legal(ops) && Orderly(cap, ops) && Live(ops, id) && NoneRejected(cap, ops)
    requires cutoff < 100_000_000_000_000_000_000
    requires forall i :: 0 <= i < |ListOf(cap, ops, id)| ==> ListOf(cap, ops, id)[i].at < 100_000_000_000_000_000_000
    ensures Answer(Run(cap, ops).sessions[id].log, ReadConfig(numRecent, Some(cutoff)))
            == TakeLast(numRecent, Since(ListOf(cap, ops, id), cutoff))
  {
    hide *;
    NoGapWithoutRejection(cap, ops, id);
    CutoffReadIsExactIff(cap, ops, id, numRecent, cutoff);
  }
}
