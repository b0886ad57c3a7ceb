/**
 * The session service over its records: session rows, segment records, app and user state,
 * and the in-process cache of append targets, which may lag behind the stored `cur`.
 */
module SessionService {
  import opened Options
  import opened Segments
  import opened SegmentLog
  import opened ScopedState
  import opened SessionOrder
  import opened SessionWorld

  datatype Row = Row(state: Dict, lastUpdate: nat, cur: nat)

  type SegmentMap = map<(SessionId, nat), Segment>

  datatype Outcome = Appended | RecordTooBig | NotConverged

  datatype SessionView = SessionView(state: Dict, events: Segment, lastUpdate: nat)

  const MAX_ATTEMPTS: nat := 64

  function SegmentAt(segments: SegmentMap, id: SessionId, n: nat): Segment {
    if (id, n) in segments then segments[(id, n)] else []
  }

  /** Segment records 0..cur of a session. */
  function LogFrom(segments: SegmentMap, id: SessionId, cur: nat): (log: Log)
    ensures |log| == cur + 1 && forall n :: 0 <= n <= cur ==> log[n] == SegmentAt(segments, id, n)
  {
    seq(cur + 1, n requires 0 <= n => SegmentAt(segments, id, n))
  }

  function SessionsFrom(rows: map<SessionId, Row>, segments: SegmentMap): (sessions: map<SessionId, Session>)
    ensures sessions.Keys == rows.Keys
    ensures forall id :: id in rows ==>
              sessions[id] == Session(rows[id].state, rows[id].lastUpdate, LogFrom(segments, id, rows[id].cur))
  {
    map id | id in rows :: Session(rows[id].state, rows[id].lastUpdate, LogFrom(segments, id, rows[id].cur))
  }

  lemma LogFromPut(segments: SegmentMap, id: SessionId, cur: nat, at: SessionId, n: nat, seg: Segment)
    ensures LogFrom(segments[(at, n) := seg], id, cur) ==
            if id == at && n <= cur then LogFrom(segments, id, cur)[n := seg] else LogFrom(segments, id, cur)
  {
  }

  lemma LogFromBump(segments: SegmentMap, id: SessionId, cur: nat)
    requires (id, cur + 1) !in segments
    ensures LogFrom(segments, id, cur + 1) == LogFrom(segments, id, cur) + [[]]
  {
  }

  /** Segments exist only below `cur` of live sessions, in order and within the limit. */
  ghost predicate SegmentsFit(cap: nat, rows: map<SessionId, Row>, segments: SegmentMap) {
    forall id, n: nat :: (id, n) in segments ==>
      id in rows && n <= rows[id].cur && Sorted(segments[(id, n)]) && Bytes(segments[(id, n)]) <= cap
  }

  /** The stored `cur`; a missing record reads as 0. */
  function StoredCur(rows: map<SessionId, Row>, id: SessionId): nat {
    if id in rows then rows[id].cur else 0
  }

  ghost predicate CacheLags(rows: map<SessionId, Row>, cache: map<SessionId, nat>) {
    forall id :: id in cache ==> cache[id] <= StoredCur(rows, id)
  }

  lemma NothingAboveCur(cap: nat, rows: map<SessionId, Row>, segments: SegmentMap, id: SessionId)
    requires SegmentsFit(cap, rows, segments)
    ensures id !in rows ==> LogFrom(segments, id, 0) == [[]]
    ensures id in rows ==> (id, rows[id].cur + 1) !in segments
  {
  }

  /** A change of one session's row and segments changes that session and no other. */
  lemma SessionsOfChange(rows: map<SessionId, Row>, segments: SegmentMap, changed: SegmentMap, id: SessionId, row: Row)
    requires forall j, n: nat :: j != id ==> SegmentAt(changed, j, n) == SegmentAt(segments, j, n)
    ensures SessionsFrom(rows[id := row], changed)
            == SessionsFrom(rows, segments)[id := Session(row.state, row.lastUpdate, LogFrom(changed, id, row.cur))]
  {
    forall j | j in rows && j != id ensures LogFrom(changed, j, rows[j].cur) == LogFrom(segments, j, rows[j].cur) {
    }
  }

  lemma SessionsOfDelete(rows: map<SessionId, Row>, segments: SegmentMap, changed: SegmentMap, id: SessionId)
    requires forall j, n: nat :: j != id ==> SegmentAt(changed, j, n) == SegmentAt(segments, j, n)
    ensures SessionsFrom(rows - {id}, changed) == SessionsFrom(rows, segments) - {id}
  {
    forall j | j in rows && j != id ensures LogFrom(changed, j, rows[j].cur) == LogFrom(segments, j, rows[j].cur) {
    }
  }

  /** An append, assembled from its writes to the single records. */
  lemma AppendAssembles(cap: nat, rows: map<SessionId, Row>, segments: SegmentMap,
                        app: map<string, Dict>, user: map<(string, string), Dict>,
                        id: SessionId, n: nat, e: Entry, delta: Dict,
                        rows1: map<SessionId, Row>, segments1: SegmentMap,
                        app1: map<string, Dict>, user1: map<(string, string), Dict>)
    requires id in rows && id in rows1 && n <= rows[id].cur
    requires var p := Partition(delta);
             && OnlyLogChanged(id, rows[id := StateWritten(rows[id], p.session, e.at)], segments, rows1, segments1)
             && LogFrom(segments1, id, rows1[id].cur) == AppendAt(cap, LogFrom(segments, id, rows[id].cur), n, e, UsesBatch(p)).log
             && app1 == PutItems(app, id.app, p.app) && user1 == PutItems(user, (id.app, id.user), p.user)
    ensures World(SessionsFrom(rows1, segments1), app1, user1)
            == AppendIn(World(SessionsFrom(rows, segments), app, user), cap, id, n, e, delta)
  {
    hide Partition, PutItems, AppendAt, SessionsFrom, SegmentAt;
    assert rows1 == rows[id := rows1[id]];
    SessionsOfChange(rows, segments, segments1, id, rows1[id]);
  }

  /** An append without a delta writes no state. */
  lemma StoringNothing(rows: map<SessionId, Row>, app: map<string, Dict>, user: map<(string, string), Dict>, id: SessionId, now: nat)
    requires id in rows
    ensures PutItems(app, id.app, map[]) == app && PutItems(user, (id.app, id.user), map[]) == user
    ensures rows[id := StateWritten(rows[id], map[], now)] == rows
  {
    assert rows[id].state + map[] == rows[id].state;
  }

  /** The segments left when those of one session below an index are removed. */
  function Without(segments: SegmentMap, id: SessionId, below: nat): SegmentMap {
    map key | key in segments && !(key.0 == id && key.1 < below) :: segments[key]
  }

  lemma WithoutNext(segments: SegmentMap, id: SessionId, n: nat)
    ensures Without(segments, id, 0) == segments
    ensures Without(segments, id, n + 1) == Without(segments, id, n) - {(id, n)}
  {
  }

  /** The loop over 0..cur+1 covers every segment there is. */
  lemma DeleteCoversAll(cap: nat, rows: map<SessionId, Row>, segments: SegmentMap, cache: map<SessionId, nat>, id: SessionId)
    requires id in rows && SegmentsFit(cap, rows, segments) && CacheLags(rows, cache)
    ensures var left := Without(segments, id, rows[id].cur + 2);
            && (forall n: nat :: (id, n) !in left)
            && (forall j, n: nat :: j != id ==> SegmentAt(left, j, n) == SegmentAt(segments, j, n))
            && SegmentsFit(cap, rows - {id}, left)
            && CacheLags(rows - {id}, cache - {id})
  {
    hide Sorted, Bytes;
  }

  /** Of one session's row only `cur` changed, and of all segments only its own. */
  ghost predicate OnlyLogChanged(id: SessionId, rows: map<SessionId, Row>, segments: SegmentMap,
                                 rows1: map<SessionId, Row>, segments1: SegmentMap) {
    && id in rows && id in rows1 && rows1 == rows[id := rows[id].(cur := rows1[id].cur)]
    && forall j, n: nat :: j != id ==> SegmentAt(segments1, j, n) == SegmentAt(segments, j, n)
  }

  /** What a batch write does to a session row. */
  function StateWritten(row: Row, session: Dict, now: nat): Row {
    row.(state := row.state + session, lastUpdate := if session == map[] then row.lastUpdate else now)
  }

  /** A change of the log is one whatever the rows hold besides `cur`. */
  lemma StateIsNotLog(id: SessionId, rows: map<SessionId, Row>, segments: SegmentMap, segments1: SegmentMap, row: Row)
    requires OnlyLogChanged(id, rows, segments, rows, segments1)
    ensures OnlyLogChanged(id, rows[id := row], segments, rows[id := row], segments1)
  {
  }

  lemma NothingChanged(id: SessionId, rows: map<SessionId, Row>, segments: SegmentMap)
    ensures id in rows ==> OnlyLogChanged(id, rows, segments, rows, segments)
  {
  }

  lemma ChangesChain(id: SessionId, rows: map<SessionId, Row>, segments: SegmentMap, rows1: map<SessionId, Row>,
                     segments1: SegmentMap, rows2: map<SessionId, Row>, segments2: SegmentMap)
    requires OnlyLogChanged(id, rows, segments, rows1, segments1) && OnlyLogChanged(id, rows1, segments1, rows2, segments2)
    ensures OnlyLogChanged(id, rows, segments, rows2, segments2)
  {
  }

  /** Where an append would go first. */
  function TargetIndex(rows: map<SessionId, Row>, cache: map<SessionId, nat>, id: SessionId): nat {
    if id in cache then cache[id] else StoredCur(rows, id)
  }

  // ---- a process that is alone -----------------------------------------------------------

  /** No cached append target is behind the stored one. */
  ghost predicate CacheCurrent(w: World, cache: map<SessionId, nat>) {
    forall id :: id in cache ==> cache[id] == if id in w.sessions then Cur(w.sessions[id].log) else 0
  }

  /** The world is what the run of these operations makes, and the cache is up to date with it. */
  ghost predicate Tracks(cap: nat, w: World, cache: map<SessionId, nat>, ops: seq<Op>) {
    Legal(ops) && w == Run(cap, ops) && CacheCurrent(w, cache)
  }

  lemma RunExtends(cap: nat, ops: seq<Op>, op: Op)
    requires Legal(ops) && (op.Append? ==> Live(ops, op.id))
    ensures Legal(ops + [op]) && Run(cap, ops + [op]) == Apply(Run(cap, ops), cap, op)
  {
    assert Init(ops + [op]) == ops && Last(ops + [op]) == op;
  }

  /** A read finds what the run makes of the session, and brings the cache up to date. */
  lemma ReadTracks(cap: nat, w: World, cache: map<SessionId, nat>, ops: seq<Op>, id: SessionId)
    requires Tracks(cap, w, cache, ops)
    ensures id in w.sessions <==> Live(ops, id)
    ensures View(w, id) == DictOf(ops, id)
    ensures id in w.sessions ==> Tracks(cap, w, cache[id := Cur(w.sessions[id].log)], ops)
    ensures w == Run(cap, ops) && Legal(ops)
  {
    hide View, Run, Legal, Live, DictOf, BareSessions;
    ViewRefinesDict(cap, ops, id);
  }

  /** An append from an up-to-date cache goes to the last segment, and leaves the cache up to date. */
  lemma AppendTracks(cap: nat, w: World, cache: map<SessionId, nat>, ops: seq<Op>, id: SessionId, n: nat, e: Entry, delta: Dict)
    requires Tracks(cap, w, cache, ops) && id in w.sessions && n == if id in cache then cache[id] else Cur(w.sessions[id].log)
    ensures n == Cur(w.sessions[id].log)
    ensures var placed := AppendAt(cap, w.sessions[id].log, n, e, UsesBatch(Partition(delta)));
            Tracks(cap, AppendIn(w, cap, id, n, e, delta), cache[id := placed.at], ops + [Append(id, e, delta)])
  {
    hide Partition, AppendAt, PutItems, Legal, Run, Live;
    AppendFromCur(cap, w.sessions[id].log, e, UsesBatch(Partition(delta)));
    RunExtends(cap, ops, Append(id, e, delta));
  }

  lemma CreateTracks(cap: nat, w: World, cache: map<SessionId, nat>, ops: seq<Op>, id: SessionId, state: Dict, now: nat)
    requires Tracks(cap, w, cache, ops) && id !in w.sessions
    ensures Tracks(cap, CreateIn(w, id, state, now), cache[id := 0], ops + [Create(id, state, now)])
  {
    hide Partition, PutItems, Legal, Run, Live;
    RunExtends(cap, ops, Create(id, state, now));
  }

  lemma DeleteTracks(cap: nat, w: World, cache: map<SessionId, nat>, ops: seq<Op>, id: SessionId)
    requires Tracks(cap, w, cache, ops)
    ensures Tracks(cap, DeleteIn(w, id), if id in w.sessions then cache - {id} else cache, ops + [Delete(id)])
  {
    hide Legal, Run, Live;
    RunExtends(cap, ops, Delete(id));
  }

  class Service {
    const cap: nat
    var rows: map<SessionId, Row>
    var segments: SegmentMap
    var appState: map<string, Dict>
    var userState: map<(string, string), Dict>
    var curCache: map<SessionId, nat>
    ghost var done: seq<Op>  // the operations so far

    ghost predicate Valid()
      reads `rows, `segments, `curCache
    {
      SegmentsFit(cap, rows, segments) && CacheLags(rows, curCache)
    }

    ghost function Contents(): World
      reads `rows, `segments, `appState, `userState
    {
      World(SessionsFrom(rows, segments), appState, userState)
    }

    /** So far this process was alone: its contents are those of the run of its operations. */
    ghost predicate Recorded()
      reads this
    {
      Tracks(cap, Contents(), curCache, done)
    }

    constructor (cap: nat)
      ensures Valid() && this.cap == cap && Contents() == EMPTY_WORLD && curCache == map[]
      ensures Recorded() && done == []
    {
      this.cap, done := cap, [];
      rows, segments, appState, userState, curCache := map[], map[], map[], map[], map[];
    }

    /** False is the store's refusal to create an existing record; the state then stays as it was. */
    method CreateSession(id: SessionId, state: Dict, now: nat) returns (created: bool, merged: Dict)
      requires Valid()
      modifies this
      ensures Valid()
      ensures created == (id !in old(Contents()).sessions)
      ensures created ==> Contents() == CreateIn(old(Contents()), id, state, now)
      ensures created ==> merged == View(Contents(), id) && curCache == old(curCache)[id := 0]
      ensures !created ==> unchanged(this)
      ensures created ==> done == old(done) + [Create(id, state, now)]
      ensures old(Recorded()) ==> Recorded()
    {
      hide Valid, Contents, Tracks, CreateIn, View;
      ghost var w, cache, ops := Contents(), curCache, done;
      created, merged := CreateRecords(id, state, now);
      if created {
        done := done + [Create(id, state, now)];
        if Tracks(cap, w, cache, ops) {
          CreateTracks(cap, w, cache, ops, id, state, now);
        }
      }
    }

    method CreateRecords(id: SessionId, state: Dict, now: nat) returns (created: bool, merged: Dict)
      requires Valid()
      modifies `rows, `appState, `userState, `curCache
      ensures Valid()
      ensures created == (id !in old(Contents()).sessions)
      ensures created ==> Contents() == CreateIn(old(Contents()), id, state, now)
      ensures created ==> merged == View(Contents(), id) && curCache == old(curCache)[id := 0]
      ensures !created ==> unchanged(this)
    {
      hide SessionsFrom, LogFrom, Partition, PutItems, Merge, Sorted, Bytes;
      var session, app, user := PartitionState(state);
      merged := map[];
      created := id !in rows;
      if !created {
        return;
      }
      NothingAboveCur(cap, rows, segments, id);
      SessionsOfChange(rows, segments, segments, id, Row(session, now, 0));
      rows := rows[id := Row(session, now, 0)];
      curCache := curCache[id := 0];
      MergeScopedState(id, app, user);
      merged := MergeState(Scoped(appState, id.app), Scoped(userState, (id.app, id.user)), session);
    }

    /** `_merge_scoped_state` for the scopes that have a delta. */
    method MergeScopedState(id: SessionId, app: Dict, user: Dict)
      modifies this`appState, this`userState
      ensures appState == PutItems(old(appState), id.app, app)
      ensures userState == PutItems(old(userState), (id.app, id.user), user)
    {
      if app != map[] {
        appState := appState[id.app := Scoped(appState, id.app) + app];
      }
      if user != map[] {
        userState := userState[(id.app, id.user) := Scoped(userState, (id.app, id.user)) + user];
      }
    }

    method CurrentSegment(id: SessionId) returns (cur: nat)
      requires Valid()
      modifies `curCache
      ensures Valid() && cur == TargetIndex(rows, old(curCache), id) <= StoredCur(rows, id)
      ensures curCache == old(curCache)[id := cur]
    {
      if id in curCache {
        cur := curCache[id];
      } else if id in rows {
        cur := rows[id].cur;
      } else {
        cur := 0;
      }
      curCache := curCache[id := cur];
    }

    /** Segment records 0..cur of a session. */
    ghost function LogOf(id: SessionId): (log: Log)
      requires id in rows
      reads `rows, `segments
      ensures |log| == rows[id].cur + 1
    {
      LogFrom(segments, id, rows[id].cur)
    }

    /** One atomic `map_put` on a segment record: refused, without effect, iff it would grow too big. */
    method PutEvent(id: SessionId, n: nat, e: Entry) returns (accepted: bool)
      requires Valid() && id in rows && n <= rows[id].cur
      modifies this`segments
      ensures Valid() && OnlyLogChanged(id, rows, old(segments), rows, segments)
      ensures accepted == Accepts(cap, old(LogOf(id))[n], e)
      ensures LogOf(id) == if accepted then old(LogOf(id))[n := MapPut(old(LogOf(id))[n], e)] else old(LogOf(id))
    {
      var seg := SegmentAt(segments, id, n);
      accepted := Accepts(cap, seg, e);
      if accepted {
        PutKeepsOrder(seg, e);
        LogFromPut(segments, id, rows[id].cur, id, n, MapPut(seg, e));
        segments := segments[(id, n) := MapPut(seg, e)];
      }
    }

    /** `map_size` of a segment; a missing record has none. */
    method SegmentSize(id: SessionId, n: nat) returns (size: nat)
      requires id in rows && n <= rows[id].cur
      ensures size == |LogOf(id)[n]|
    {
      size := |SegmentAt(segments, id, n)|;
    }

    /** One guarded increment of `cur`, or a read of the value that made the guard fail. */
    method RollOver(id: SessionId, n: nat) returns (cur: nat)
      requires Valid() && id in rows && n <= rows[id].cur
      modifies this`rows, this`curCache
      ensures Valid() && OnlyLogChanged(id, old(rows), segments, rows, segments)
      ensures cur == rows[id].cur && LogOf(id) == RolledOver(old(LogOf(id)), n)
      ensures curCache == old(curCache)[id := cur]
    {
      NothingAboveCur(cap, rows, segments, id);
      LogFromBump(segments, id, rows[id].cur);
      if rows[id].cur == n {
        rows := rows[id := rows[id].(cur := n + 1)];
      }
      cur := rows[id].cur;
      curCache := curCache[id := cur];
    }

    /** The loop of `_place_event`. */
    method PlaceLoop(id: SessionId, start: nat, e: Entry) returns (outcome: Outcome)
      requires Valid() && id in rows && start <= rows[id].cur && id in curCache && curCache[id] == start
      modifies this`rows, this`segments, this`curCache
      ensures Valid() && OnlyLogChanged(id, old(rows), old(segments), rows, segments) && id in rows
      ensures var placed := PlaceAt(cap, old(LogOf(id)), start, e);
              LogOf(id) == placed.log && curCache == old(curCache)[id := placed.at]
              && outcome == if placed.stored then Appended else RecordTooBig
    {
      hide Valid, LogOf, OnlyLogChanged, PlaceAt, MapPut, Accepts, RolledOver;
      ghost var goal := PlaceAt(cap, LogOf(id), start, e);
      NothingChanged(id, rows, segments);
      var cur: nat := start;
      var attempt := 0;
      while attempt < MAX_ATTEMPTS
        invariant Valid() && id in rows && OnlyLogChanged(id, old(rows), old(segments), rows, segments)
        invariant cur < |LogOf(id)| && PlaceAt(cap, LogOf(id), cur, e) == goal
        invariant cur <= rows[id].cur && attempt + BumpsLeft(LogOf(id), cur) <= 2
        invariant curCache == old(curCache)[id := cur]
      {
        ghost var log, rows0, segments0 := LogOf(id), rows, segments;
        PlaceUnfolds(cap, log, cur, e);
        var accepted := PutEvent(id, cur, e);
        ChangesChain(id, old(rows), old(segments), rows0, segments0, rows, segments);
        if accepted {
          assert curCache[id := cur] == curCache;
          curCache := curCache[id := cur];
          return Appended;
        }
        var size := SegmentSize(id, cur);
        if size == 0 {
          return RecordTooBig;
        }
        BumpsRunOut(log, cur);
        cur := RollOver(id, cur);
        ChangesChain(id, old(rows), old(segments), rows0, segments, rows, segments);
        attempt := attempt + 1;
      }
      assert false;
      return NotConverged;
    }

    method PlaceEvent(id: SessionId, start: nat, e: Entry, afterOverflow: bool) returns (outcome: Outcome)
      requires Valid() && id in rows && start <= rows[id].cur && id in curCache && curCache[id] == start
      modifies this`rows, this`segments, this`curCache
      ensures Valid() && OnlyLogChanged(id, old(rows), old(segments), rows, segments) && id in rows
      ensures var placed := if afterOverflow then PlaceAfterOverflow(cap, old(LogOf(id)), start, e)
                            else PlaceAt(cap, old(LogOf(id)), start, e);
              LogOf(id) == placed.log && curCache == old(curCache)[id := placed.at]
              && outcome == if placed.stored then Appended else RecordTooBig
    {
      hide Valid, OnlyLogChanged, PlaceAt, RolledOver;
      var cur := start;
      if afterOverflow {
        cur := RollOver(id, start);
      }
      ghost var rows0 := rows;
      NothingChanged(id, rows, segments);
      outcome := PlaceLoop(id, cur, e);
      ChangesChain(id, old(rows), old(segments), rows0, old(segments), rows, segments);
    }

    /** The state part of a batch write. */
    method WriteState(id: SessionId, now: nat, session: Dict, app: Dict, user: Dict)
      requires Valid() && id in rows
      modifies this`rows, this`appState, this`userState
      ensures Valid() && rows == old(rows)[id := StateWritten(old(rows)[id], session, now)]
      ensures appState == PutItems(old(appState), id.app, app)
      ensures userState == PutItems(old(userState), (id.app, id.user), user)
    {
      assert rows[id].state + map[] == rows[id].state;
      if session != map[] {
        rows := rows[id := rows[id].(state := rows[id].state + session, lastUpdate := now)];
      }
      MergeScopedState(id, app, user);
    }

    /** The batch path: the event and the state writes of every scope that has one, in one round trip. */
    method AppendBatch(id: SessionId, start: nat, e: Entry, session: Dict, app: Dict, user: Dict) returns (outcome: Outcome)
      requires Valid() && id in rows && start <= rows[id].cur && id in curCache && curCache[id] == start
      modifies `rows, `segments, `appState, `userState, `curCache
      ensures Valid() && id in rows
      ensures OnlyLogChanged(id, old(rows)[id := StateWritten(old(rows)[id], session, e.at)], old(segments), rows, segments)
      ensures appState == PutItems(old(appState), id.app, app)
      ensures userState == PutItems(old(userState), (id.app, id.user), user)
      ensures var placed := AppendAt(cap, old(LogOf(id)), start, e, true);
              LogOf(id) == placed.log && curCache == old(curCache)[id := placed.at]
              && outcome == if placed.stored then Appended else RecordTooBig
    {
      ghost var log, written := LogOf(id), rows[id := StateWritten(rows[id], session, e.at)];
      hide SegmentsFit, CacheLags, OnlyLogChanged, PlaceAt, PlaceAfterOverflow, Accepts, MapPut, PutItems, LogFrom;
      PlaceUnfolds(cap, log, start, e);
      var accepted := PutEvent(id, start, e);
      ghost var segments0 := segments;
      StateIsNotLog(id, rows, old(segments), segments, StateWritten(rows[id], session, e.at));
      WriteState(id, e.at, session, app, user);
      if accepted {
        curCache := curCache[id := start];
        assert curCache == old(curCache);
        outcome := Appended;
      } else {
        outcome := PlaceEvent(id, start, e, true);
        ChangesChain(id, written, old(segments), written, segments0, rows, segments);
      }
    }

    /** One event and its state delta: the operate path when the delta is empty, else the batch path. */
    method AppendEventRecord(id: SessionId, e: Entry, session: Dict, app: Dict, user: Dict) returns (outcome: Outcome)
      requires Valid() && id in rows
      modifies `rows, `segments, `appState, `userState, `curCache
      ensures Valid() && id in rows
      ensures OnlyLogChanged(id, old(rows)[id := StateWritten(old(rows)[id], session, e.at)], old(segments), rows, segments)
      ensures appState == PutItems(old(appState), id.app, app)
      ensures userState == PutItems(old(userState), (id.app, id.user), user)
      ensures var n := TargetIndex(old(rows), old(curCache), id);
              n < |old(LogOf(id))| &&
              var placed := AppendAt(cap, old(LogOf(id)), n, e, UsesBatch(Parts(session, app, user)));
              LogOf(id) == placed.log && curCache == old(curCache)[id := placed.at]
              && outcome == if placed.stored then Appended else RecordTooBig
    {
      hide PutItems, LogFrom, PlaceAt, SegmentsFit, Accepts, MapPut, OnlyLogChanged, StateWritten;
      var cur := CurrentSegment(id);
      if session == map[] && app == map[] && user == map[] {
        outcome := PlaceEvent(id, cur, e, false);
        StoringNothing(old(rows), appState, userState, id, e.at);
      } else {
        outcome := AppendBatch(id, cur, e, session, app, user);
      }
    }

    /**
     * `append_event` after the base class took the temporary keys: keyed by the event's own
     * time, or by the clock when it has none.
     */
    method AppendEvent(id: SessionId, event: Event, clock: nat, delta: Dict) returns (outcome: Outcome)
      requires Valid() && id in rows
      modifies this
      ensures Valid() && id in old(Contents()).sessions
      ensures var w, e := old(Contents()), Entry(if event.micros != 0 then event.micros else clock, event);
              var n := TargetIndex(old(rows), old(curCache), id);
              && n < |w.sessions[id].log|
              && Contents() == AppendIn(w, cap, id, n, e, delta)
              && var placed := AppendAt(cap, w.sessions[id].log, n, e, UsesBatch(Partition(delta)));
              && curCache == old(curCache)[id := placed.at]
              && outcome == if placed.stored then Appended else RecordTooBig
      ensures done == old(done) + [Append(id, Entry(if event.micros != 0 then event.micros else clock, event), delta)]
      ensures old(Recorded()) ==> Recorded()
    {
      hide Valid, Contents, Tracks, AppendIn, AppendAt, Partition, TargetIndex;
      ghost var w, cache, ops, n := Contents(), curCache, done, TargetIndex(rows, curCache, id);
      var e := Entry(if event.micros != 0 then event.micros else clock, event);
      outcome := AppendEntry(id, e, delta);
      done := done + [Append(id, e, delta)];
      if Tracks(cap, w, cache, ops) {
        AppendTracks(cap, w, cache, ops, id, n, e, delta);
      }
    }

    method AppendEntry(id: SessionId, e: Entry, delta: Dict) returns (outcome: Outcome)
      requires Valid() && id in rows
      modifies `rows, `segments, `appState, `userState, `curCache
      ensures Valid() && id in old(Contents()).sessions
      ensures var w, n := old(Contents()), TargetIndex(old(rows), old(curCache), id);
              && n < |w.sessions[id].log|
              && n == (if id in old(curCache) then old(curCache)[id] else Cur(w.sessions[id].log))
              && Contents() == AppendIn(w, cap, id, n, e, delta)
              && var placed := AppendAt(cap, w.sessions[id].log, n, e, UsesBatch(Partition(delta)));
              && curCache == old(curCache)[id := placed.at]
              && outcome == if placed.stored then Appended else RecordTooBig
    {
      hide Partition, PutItems, LogFrom, SessionsFrom, SegmentsFit, AppendIn, AppendAt, OnlyLogChanged, StateWritten;
      var session, app, user := PartitionState(delta);
      outcome := AppendEventRecord(id, e, session, app, user);
      AppendAssembles(cap, old(rows), old(segments), old(appState), old(userState), id,
                      TargetIndex(old(rows), old(curCache), id), e, delta, rows, segments, appState, userState);
    }

    // ---- reads -------------------------------------------------------------------------

    /** One server-side read of a segment, in key order. */
    method ReadSegmentEntries(id: SessionId, n: nat, wantLast: Option<nat>, after: Option<nat>) returns (entries: Segment)
      ensures entries == ReadRange(SegmentAt(segments, id, n), wantLast, after)
    {
      var seg := SegmentAt(segments, id, n);
      if after.Some? {
        entries := Matching(seg, after);
      } else {
        entries := TakeLast(wantLast, seg);
      }
    }

    /** The inner loop of the walk: collect entries newest first until enough are there. */
    method CollectEntries(collected: Segment, entries: Segment, numRecent: Option<nat>)
      returns (more: Segment, done: bool, ghost left: nat)
      requires numRecent.Some? ==> |collected| < numRecent.value
      ensures left <= |entries| && |more| == |entries| - left + |collected|
      ensures Reverse(more) == entries[left..] + Reverse(collected)
      ensures done ==> numRecent == Some(|more|)
      ensures !done ==> left == 0 && (numRecent.Some? ==> |more| < numRecent.value)
    {
      more := collected;
      done := false;
      var i := |entries|;
      while i > 0 && !done
        invariant 0 <= i <= |entries| && |more| == |entries| - i + |collected|
        invariant Reverse(more) == entries[i..] + Reverse(collected)
        invariant done ==> numRecent == Some(|more|)
        invariant !done && numRecent.Some? ==> |more| < numRecent.value
        decreases i, !done
      {
        i := i - 1;
        ReverseOfAppend(more, entries[i]);
        more := more + [entries[i]];
        if numRecent.Some? && |more| >= numRecent.value {
          done := true;
        }
      }
      left := i;
    }

    /** The walk over segments cur..0, newest first. */
    method LoadEvents(id: SessionId, cur: nat, config: ReadConfig) returns (events: Segment)
      ensures events == Answer(LogFrom(segments, id, cur), config)
    {
      hide LogFrom, SegmentAt, ReadRange, Answer, WalkedTo;
      ghost var log := LogFrom(segments, id, cur);
      if config.numRecent == Some(0) {
        AskedForNone(log, config.after);
        return [];
      }
      WalkStarts(log, config);
      var collected: Segment := [];  // newest to oldest
      var next := cur + 1;
      var done := false;
      while next > 0 && !done
        invariant 0 <= next <= cur + 1
        invariant !done ==> WalkedTo(log, next, config, Reverse(collected))
        invariant !done && config.numRecent.Some? ==> |collected| < config.numRecent.value
        invariant done ==> Reverse(collected) == Answer(log, config)
        decreases next, !done
      {
        var gidx := next - 1;
        var need := if config.numRecent.Some? then Some(config.numRecent.value - |collected|) else None;
        var entries := ReadSegmentEntries(id, gidx, need, config.after);
        ghost var newer := Reverse(collected);
        ghost var left;
        collected, done, left := CollectEntries(collected, entries, config.numRecent);
        if done {
          WalkIsSatisfied(log, gidx, config, newer, left);
        } else if config.after.Some? && |entries| == 0 {
          WalkStops(log, gidx, config, newer);
          done := true;
        } else {
          assert entries[left..] == entries;
          WalkGoesOn(log, gidx, config, newer);
        }
        next := gidx;
      }
      if !done {
        WalkEnds(log, config, Reverse(collected));
      }
      events := Reverse(collected);
    }

    /** The merged state, the events asked for, and the time of the last of them. */
    method GetSession(id: SessionId, config: ReadConfig) returns (found: bool, view: SessionView)
      requires Valid()
      modifies `curCache
      ensures Valid() && found == (id in Contents().sessions)
      ensures found ==> id in Contents().sessions
                        && view.state == View(Contents(), id)
                        && view.events == Answer(Contents().sessions[id].log, config)
                        && view.lastUpdate == LastTime(view.events, Contents().sessions[id].lastUpdate)
      ensures found ==> curCache == old(curCache)[id := Cur(Contents().sessions[id].log)]
      ensures !found ==> curCache == old(curCache)
      ensures old(Recorded()) ==> Recorded() && found == Live(done, id)
      ensures old(Recorded()) && found ==> view.state == DictOf(done, id)
      ensures old(Recorded()) && found && Orderly(cap, done) ==> ReadsAs(cap, done, id, config, view.events)
      ensures old(Recorded()) && found && FreshKeys(cap, done) ==> ReadsWithin(cap, done, id, config, view.events)
      ensures old(Recorded()) && found && view.events == [] ==> view.lastUpdate == UpdatedAt(done, id)
      ensures old(Recorded()) && found && view.events != [] && Orderly(cap, done) && RealTimes(done)
              ==> IsNewestTime(view.events, view.lastUpdate)
    {
      hide Valid, Contents, Tracks, View, Run, Legal, Live, DictOf, Orderly, Answer, ReadsAs, FreshKeys, ReadsWithin,
           UpdatedAt, RealTimes, IsNewestTime;
      ghost var w, cache := Contents(), curCache;
      found, view := ReadSession(id, config);
      if Tracks(cap, w, cache, done) {
        ReadTracks(cap, w, cache, done, id);
        if found && Orderly(cap, done) {
          ReadOfRun(cap, done, id, config);
          if view.events != [] && RealTimes(done) {
            LastOfReadIsNewest(cap, done, id, config, view.events);
          }
        }
        if found {
          LastUpdateIsUpdatedAt(cap, done, id);
        }
        if found && FreshKeys(cap, done) {
          ReadConservesList(cap, done, id, config);
        }
      }
    }

    method ReadSession(id: SessionId, config: ReadConfig) returns (found: bool, view: SessionView)
      requires Valid()
      modifies `curCache
      ensures Valid() && found == (id in Contents().sessions)
      ensures found ==> id in Contents().sessions
                        && view.state == View(Contents(), id)
                        && view.events == Answer(Contents().sessions[id].log, config)
                        && view.lastUpdate == LastTime(view.events, Contents().sessions[id].lastUpdate)
      ensures found ==> curCache == old(curCache)[id := Cur(Contents().sessions[id].log)]
      ensures !found ==> curCache == old(curCache)
    {
      hide Merge, LogFrom, SessionsFrom, Answer, SegmentsFit;
      view := SessionView(map[], [], 0);
      found := id in rows;
      if !found {
        return;
      }
      var merged := MergeState(Scoped(appState, id.app), Scoped(userState, (id.app, id.user)), rows[id].state);
      var cur := rows[id].cur;
      curCache := curCache[id := cur];
      var events := LoadEvents(id, cur, config);
      var lastUpdate := rows[id].lastUpdate;
      if events != [] && events[|events| - 1].event.micros != 0 {
        lastUpdate := events[|events| - 1].event.micros;
      }
      view := SessionView(merged, events, lastUpdate);
    }

    // ---- delete --------------------------------------------------------------------------

    method DeleteSegments(id: SessionId, below: nat)
      modifies this`segments
      ensures segments == Without(old(segments), id, below)
    {
      hide Without;
      var gidx := 0;
      WithoutNext(segments, id, 0);
      while gidx < below
        invariant 0 <= gidx <= below
        invariant segments == Without(old(segments), id, gidx)
      {
        WithoutNext(old(segments), id, gidx);
        segments := segments - {(id, gidx)};
        gidx := gidx + 1;
      }
    }

    /** Removes segment records 0..cur+1, then the session record. */
    method DeleteSession(id: SessionId)
      requires Valid()
      modifies this
      ensures Valid() && Contents() == DeleteIn(old(Contents()), id)
      ensures forall n: nat :: (id, n) !in segments
      ensures done == old(done) + [Delete(id)]
      ensures old(Recorded()) ==> Recorded()
    {
      hide Valid, Contents, Tracks, DeleteIn;
      ghost var w, cache, ops := Contents(), curCache, done;
      RemoveRecords(id);
      done := done + [Delete(id)];
      if Tracks(cap, w, cache, ops) {
        DeleteTracks(cap, w, cache, ops, id);
      }
    }

    method RemoveRecords(id: SessionId)
      requires Valid()
      modifies this`rows, this`segments, this`curCache
      ensures Valid() && Contents() == DeleteIn(old(Contents()), id)
      ensures curCache == if id in old(rows) then old(curCache) - {id} else old(curCache)
      ensures id in old(rows) <==> id in old(Contents()).sessions
      ensures forall n: nat :: (id, n) !in segments
    {
      hide SessionsFrom, LogFrom, Sorted, Bytes, Without, SegmentAt;
      if id !in rows {
        assert Contents().sessions - {id} == Contents().sessions;
        return;
      }
      DeleteSegments(id, rows[id].cur + 2);
      DeleteCoversAll(cap, rows, old(segments), curCache, id);
      SessionsOfDelete(rows, old(segments), segments, id);
      rows := rows - {id};
      curCache := curCache - {id};
    }
  }

  /** The time of the last event that a read returned, which is the newest when events came in order. */
  function LastTime(events: Segment, otherwise: nat): nat {
    if events != [] && events[|events| - 1].event.micros != 0 then events[|events| - 1].event.micros else otherwise
  }
}
