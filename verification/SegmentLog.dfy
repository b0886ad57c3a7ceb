/** One session's log: where an append goes, and what a walk over the segments returns. */
module SegmentLog {
  import opened Text
  import opened EventKeys
  import opened Options
  import opened Segments

  /** Segments 0..cur; a segment record that does not exist yet is empty. */
  type Log = s: seq<Segment> | s != [] witness [[]]

  function Cur(log: Log): nat {
    |log| - 1
  }

  function History(segs: seq<Segment>): Segment {
    if segs == [] then [] else segs[0] + History(segs[1..])
  }

  lemma {:induction false} HistorySplits(a: seq<Segment>, b: seq<Segment>)
    ensures History(a + b) == History(a) + History(b)
  {
    if a == [] {
      assert a + b == b;
    } else {
      assert (a + b)[1..] == a[1..] + b;
      HistorySplits(a[1..], b);
    }
  }

  lemma HistoryOfOne(seg: Segment)
    ensures History([seg]) == seg
  {
    assert History([seg]) == seg + History([]);
  }

  lemma HistoryOfNone()
    ensures History([]) == []
  {
  }

  /** A log around one of its segments. */
  lemma HistoryAround(segs: seq<Segment>, n: nat)
    requires n < |segs|
    ensures History(segs) == History(segs[..n]) + segs[n] + History(segs[n + 1..])
  {
    assert segs == segs[..n] + segs[n..];
    HistorySplits(segs[..n], segs[n..]);
  }

  lemma HistoryOfUpdate(segs: seq<Segment>, n: nat, seg: Segment)
    requires n < |segs|
    ensures History(segs[n := seg]) == History(segs[..n]) + seg + History(segs[n + 1..])
  {
    HistoryAround(segs[n := seg], n);
    assert segs[n := seg][..n] == segs[..n] && segs[n := seg][n + 1..] == segs[n + 1..];
  }

  // ---- appends -----------------------------------------------------------------------

  /** `_roll_over(n)`: bump `cur` if it is still n. */
  function RolledOver(log: Log, n: nat): (r: Log)
    requires n < |log|
    ensures |r| >= |log|
  {
    if n == Cur(log) then log + [[]] else log
  }

  /** The log after an append, the index it ended at, and whether the event was stored. */
  datatype Placed = Placed(log: Log, at: nat, stored: bool)

  /** `_place_event` from index n, with no other writer. */
  function PlaceAt(cap: nat, log: Log, n: nat, e: Entry): (r: Placed)
    requires n < |log|
    ensures r.at < |r.log|
    decreases if log[n] == [] then 0 else |log| - n
  {
    if Accepts(cap, log[n], e) then Placed(log[n := MapPut(log[n], e)], n, true)
    else if log[n] == [] then Placed(log, n, false)
    else var rolled := RolledOver(log, n); PlaceAt(cap, rolled, Cur(rolled), e)
  }

  /** `_place_event` after the batch was refused: it rolls over first, whatever segment n holds. */
  function PlaceAfterOverflow(cap: nat, log: Log, n: nat, e: Entry): (r: Placed)
    requires n < |log|
    ensures r.at < |r.log|
  {
    var rolled := RolledOver(log, n);
    PlaceAt(cap, rolled, Cur(rolled), e)
  }

  /** One iteration of the placing loop. */
  lemma PlaceUnfolds(cap: nat, log: Log, n: nat, e: Entry)
    requires n < |log|
    ensures Accepts(cap, log[n], e) ==> PlaceAt(cap, log, n, e) == Placed(log[n := MapPut(log[n], e)], n, true)
    ensures !Accepts(cap, log[n], e) && log[n] == [] ==> PlaceAt(cap, log, n, e) == Placed(log, n, false)
    ensures !Accepts(cap, log[n], e) && log[n] != [] ==> PlaceAt(cap, log, n, e) == PlaceAfterOverflow(cap, log, n, e)
  {
  }

  /** Rollovers left before an empty segment is reached: a stale index costs one more than `cur` itself. */
  function BumpsLeft(log: Log, n: nat): nat
    requires n < |log|
  {
    if log[n] == [] then 0 else if n == Cur(log) then 1 else 2
  }

  lemma BumpsRunOut(log: Log, n: nat)
    requires n < |log| && log[n] != []
    ensures BumpsLeft(RolledOver(log, n), Cur(RolledOver(log, n))) < BumpsLeft(log, n)
  {
  }

  /** `_append_event_record`: the batch path rolls over without looking at the refusing segment. */
  function AppendAt(cap: nat, log: Log, n: nat, e: Entry, batch: bool): (r: Placed)
    requires n < |log|
    ensures r.at < |r.log|
  {
    if batch && !Accepts(cap, log[n], e) then PlaceAfterOverflow(cap, log, n, e) else PlaceAt(cap, log, n, e)
  }

  ghost predicate WellFormed(cap: nat, log: seq<Segment>) {
    forall n :: 0 <= n < |log| ==> Sorted(log[n]) && Bytes(log[n]) <= cap
  }

  lemma RolloverKeepsHistory(log: Log, n: nat)
    requires n < |log|
    ensures History(RolledOver(log, n)) == History(log)
  {
    HistorySplits(log, [[]]);
    HistoryOfOne([]);
  }

  lemma {:induction false} PlaceKeepsWellFormed(cap: nat, log: Log, n: nat, e: Entry)
    requires n < |log| && WellFormed(cap, log)
    ensures WellFormed(cap, PlaceAt(cap, log, n, e).log)
    decreases if log[n] == [] then 0 else |log| - n
  {
    if Accepts(cap, log[n], e) {
      PutKeepsOrder(log[n], e);
    } else if log[n] != [] {
      var rolled := RolledOver(log, n);
      PlaceKeepsWellFormed(cap, rolled, Cur(rolled), e);
    }
  }

  lemma AppendKeepsWellFormed(cap: nat, log: Log, n: nat, e: Entry, batch: bool)
    requires n < |log| && WellFormed(cap, log)
    ensures WellFormed(cap, AppendAt(cap, log, n, e, batch).log)
  {
    hide PlaceAt, Accepts, Sorted;
    var rolled := RolledOver(log, n);
    PlaceKeepsWellFormed(cap, log, n, e);
    EmptyFits(cap);
    PlaceKeepsWellFormed(cap, rolled, Cur(rolled), e);
  }

  lemma EmptyFits(cap: nat)
    ensures Sorted([]) && Bytes([]) <= cap
  {
  }

  lemma {:induction false} PlaceFailsOnlyWhenOversized(cap: nat, log: Log, n: nat, e: Entry)
    requires n < |log|
    ensures PlaceAt(cap, log, n, e).stored <==> e.event.size <= cap
    decreases if log[n] == [] then 0 else |log| - n
  {
    PutCosts(log[n], e);
    EmptySegmentAccepts(cap, e);
    if !Accepts(cap, log[n], e) && log[n] != [] {
      var rolled := RolledOver(log, n);
      PlaceFailsOnlyWhenOversized(cap, rolled, Cur(rolled), e);
    }
  }

  /** An append fails exactly for an event that fits no record, from any index, on either path. */
  lemma AppendFailsOnlyWhenOversized(cap: nat, log: Log, n: nat, e: Entry, batch: bool)
    requires n < |log|
    ensures AppendAt(cap, log, n, e, batch).stored <==> e.event.size <= cap
  {
    var rolled := RolledOver(log, n);
    PlaceFailsOnlyWhenOversized(cap, log, n, e);
    PlaceFailsOnlyWhenOversized(cap, rolled, Cur(rolled), e);
  }

  /** A put of a key that the tried segments lack adds its entry once. */
  lemma {:induction false} PlaceAdds(cap: nat, log: Log, n: nat, e: Entry)
    requires n < |log| && !HasKey(log[n], e.Key()) && !HasKey(log[Cur(log)], e.Key())
    ensures var r := PlaceAt(cap, log, n, e);
            multiset(History(r.log)) == multiset(History(log)) + if r.stored then multiset{e} else multiset{}
    decreases if log[n] == [] then 0 else |log| - n
  {
    hide MapPut, Accepts, History, EventMapKey;
    if Accepts(cap, log[n], e) {
      HistoryAround(log, n);
      HistoryOfUpdate(log, n, MapPut(log[n], e));
      PutAdds(log[n], e);
    } else if log[n] != [] {
      var rolled := RolledOver(log, n);
      RolloverKeepsHistory(log, n);
      PlaceAdds(cap, rolled, Cur(rolled), e);
    }
  }

  /** A segment holds no key that the history lacks. */
  lemma NoKeyInSegment(log: Log, n: nat, key: string)
    requires n < |log| && !HasKey(History(log), key)
    ensures !HasKey(log[n], key)
  {
    hide History, EventMapKey;
    forall i | 0 <= i < |log[n]| ensures log[n][i].Key() != key {
      HistoryIndex(log, n, i);
    }
  }

  /** Nothing is lost or doubled: an append of a new key adds its entry once, or nothing at all. */
  lemma AppendConserves(cap: nat, log: Log, n: nat, e: Entry, batch: bool)
    requires n < |log| && !HasKey(History(log), e.Key())
    ensures var r := AppendAt(cap, log, n, e, batch);
            multiset(History(r.log)) == multiset(History(log)) + if r.stored then multiset{e} else multiset{}
  {
    hide HasKey, PlaceAt, Accepts, History;
    var rolled := RolledOver(log, n);
    RolloverKeepsHistory(log, n);
    NoKeyInSegment(log, n, e.Key());
    NoKeyInSegment(rolled, Cur(rolled), e.Key());
    NoKeyInSegment(log, Cur(log), e.Key());
    PlaceAdds(cap, log, n, e);
    PlaceAdds(cap, rolled, Cur(rolled), e);
  }

  lemma {:induction false} PlacedWhereItEnded(cap: nat, log: Log, n: nat, e: Entry)
    requires n < |log| && PlaceAt(cap, log, n, e).stored
    ensures var r := PlaceAt(cap, log, n, e); Accepts(cap, r.log[r.at], e) && MapPut(r.log[r.at], e) == r.log[r.at]
    decreases if log[n] == [] then 0 else |log| - n
  {
    if Accepts(cap, log[n], e) {
      PutIsIdempotent(log[n], e);
    } else {
      var rolled := RolledOver(log, n);
      PlacedWhereItEnded(cap, rolled, Cur(rolled), e);
    }
  }

  /** Appending again from the index the first append ended at changes nothing. */
  lemma ReappendIsIdempotent(cap: nat, log: Log, n: nat, e: Entry, batch: bool, again: bool)
    requires n < |log| && AppendAt(cap, log, n, e, batch).stored
    ensures var r := AppendAt(cap, log, n, e, batch); AppendAt(cap, r.log, r.at, e, again) == r
  {
    var rolled := RolledOver(log, n);
    if batch && !Accepts(cap, log[n], e) {
      PlacedWhereItEnded(cap, rolled, Cur(rolled), e);
    } else {
      PlacedWhereItEnded(cap, log, n, e);
    }
    var r := AppendAt(cap, log, n, e, batch);
    assert r.log[r.at := r.log[r.at]] == r.log;
  }

  /**
   * What a second append of an event finds: its entry in the segment it targets, or, when that
   * one is full and no longer the last, in the last.
   */
  predicate Finds(cap: nat, log: Log, n: nat, e: Entry)
    requires n < |log|
  {
    e in log[n] || (n < Cur(log) && !Accepts(cap, log[n], e) && e in log[Cur(log)])
  }

  /** An append to an up-to-date log of a segment that holds the entry accepts it. */
  lemma HeldIsAccepted(cap: nat, log: Log, n: nat, e: Entry)
    requires WellFormed(cap, log) && n < |log|
    ensures MapPut(log[n], e) == log[n] <==> e in log[n]
    ensures e in log[n] ==> Accepts(cap, log[n], e)
    ensures log[n := MapPut(log[n], e)] == log <==> e in log[n]
  {
    PutUnchangedIff(log[n], e);
    assert log[n := log[n]] == log;
    assert log[n := MapPut(log[n], e)][n] == MapPut(log[n], e);
  }

  /**
   * An append of a storable event changes nothing if and only if it finds the event: neither
   * path looks into any other segment.
   */
  lemma AppendIsNoOpIff(cap: nat, log: Log, n: nat, e: Entry, batch: bool)
    requires WellFormed(cap, log) && n < |log| && e.event.size <= cap
    ensures AppendAt(cap, log, n, e, batch).log == log <==> Finds(cap, log, n, e)
  {
    hide Accepts, MapPut, WellFormed;
    var m := Cur(log);
    HeldIsAccepted(cap, log, n, e);
    HeldIsAccepted(cap, log, m, e);
    EmptySegmentAccepts(cap, e);
    PlaceUnfolds(cap, log, n, e);
    PlaceUnfolds(cap, log, m, e);
    PlaceGrows(cap, log + [[]], |log|, e);
  }

  lemma {:induction false} PlaceGrows(cap: nat, log: Log, n: nat, e: Entry)
    requires n < |log|
    ensures |PlaceAt(cap, log, n, e).log| >= |log|
    decreases if log[n] == [] then 0 else |log| - n
  {
    if !Accepts(cap, log[n], e) && log[n] != [] {
      var rolled := RolledOver(log, n);
      PlaceGrows(cap, rolled, Cur(rolled), e);
    }
  }

  /** The key decides the entry, as it does when an event is appended again. */
  ghost predicate KeyMeans(segs: seq<Entry>, e: Entry) {
    forall i :: 0 <= i < |segs| && segs[i].Key() == e.Key() ==> segs[i] == e
  }

  /** An append that does not find its event adds a copy, whatever older segments hold. */
  lemma AppendElseAddsCopy(cap: nat, log: Log, n: nat, e: Entry, batch: bool)
    requires WellFormed(cap, log) && n < |log| && e.event.size <= cap && KeyMeans(History(log), e) && !Finds(cap, log, n, e)
    ensures multiset(History(AppendAt(cap, log, n, e, batch).log)) == multiset(History(log)) + multiset{e}
  {
    hide MapPut, WellFormed, History, Accepts, PlaceAt;
    var m := Cur(log);
    var rolled := RolledOver(log, n);
    RolloverKeepsHistory(log, n);
    EmptySegmentAccepts(cap, e);
    PlaceUnfolds(cap, log, n, e);
    PlaceFailsOnlyWhenOversized(cap, rolled, Cur(rolled), e);
    if Accepts(cap, log[n], e) {
      AbsentKey(log, n, e);
      HistoryAround(log, n);
      HistoryOfUpdate(log, n, MapPut(log[n], e));
      PutAdds(log[n], e);
    } else {
      if n < m {
        AbsentKey(log, m, e);
      }
      PlaceAdds(cap, rolled, Cur(rolled), e);
    }
  }

  lemma AbsentKey(log: Log, n: nat, e: Entry)
    requires n < |log| && KeyMeans(History(log), e) && e !in log[n]
    ensures !HasKey(log[n], e.Key())
  {
    hide History, EventMapKey;
    forall i | 0 <= i < |log[n]| ensures log[n][i].Key() != e.Key() {
      HistoryIndex(log, n, i);
    }
  }

  /** Such logs are reached: any two events that do not fit one segment together will do. */
  lemma ReappendAfterRolloverDuplicates(cap: nat, e: Entry, f: Entry, batch: bool)
    requires e.event.size <= cap && f.event.size <= cap < e.event.size + f.event.size && e.Key() != f.Key()
    ensures var one := AppendAt(cap, [[]], 0, e, batch).log;
            var two := AppendAt(cap, one, Cur(one), f, batch).log;
            var three := AppendAt(cap, two, Cur(two), e, batch).log;
            one == [[e]] && two == [[e], [f]] && three == [[e], [f], [e]] && multiset(History(three))[e] == 2
  {
    hide AppendAt, EventMapKey, History;
    var none: seq<Segment>, empty: Segment := [], [];
    AppendToOne(cap, none, empty, e, batch);
    AppendToOne(cap, none, [e], f, batch);
    AppendToOne(cap, [[e]], [f], e, batch);
    assert none + [empty] == [[]] && none + [[e]] == [[e]];
    assert [[e]] + [[f]] == [[e], [f]] && [[e], [f]] + [[e]] == [[e], [f], [e]];
    HistoryOfThree(e, f, e);
  }

  lemma HistoryOfThree(e: Entry, f: Entry, g: Entry)
    ensures History([[e], [f], [g]]) == [e, f, g]
  {
    assert [[e], [f], [g]][1..] == [[f], [g]] && [[f], [g]][1..] == [[g]];
    HistoryOfOne([g]);
    assert [e] + ([f] + [g]) == [e, f, g];
  }

  /** An append to a last segment that is empty, or holds one other event and has no room. */
  lemma AppendToOne(cap: nat, older: seq<Segment>, top: Segment, e: Entry, batch: bool)
    requires e.event.size <= cap
    requires top == [] || (|top| == 1 && top[0].Key() != e.Key() && top[0].event.size + e.event.size > cap)
    ensures AppendAt(cap, older + [top], |older|, e, batch).log == if top == [] then older + [[e]] else older + [top] + [[e]]
  {
    var log := older + [top];
    var n := |older|;
    EmptySegmentAccepts(cap, e);
    PlaceUnfolds(cap, log, n, e);
    if top == [] {
      assert log[n := [e]] == older + [[e]];
    } else {
      PutOnOne(top[0], e);
      assert top == [top[0]];
      PlaceUnfolds(cap, log + [[]], n + 1, e);
      assert (log + [[]])[n + 1 := [e]] == log + [[e]];
    }
  }

  lemma PutOnOne(x: Entry, e: Entry)
    requires x.Key() != e.Key()
    ensures Bytes(MapPut([x], e)) == x.event.size + e.event.size
  {
    assert [x, e][1..] == [e] && [e, x][1..] == [x];
    BytesOfOne(x);
    BytesOfOne(e);
    assert Bytes([x, e]) == x.event.size + Bytes([e]) && Bytes([e, x]) == e.event.size + Bytes([x]);
    assert [x][1..] == [] && MapPut([], e) == [e];
  }

  lemma BytesOfOne(x: Entry)
    ensures Bytes([x]) == x.event.size
  {
    assert [x][1..] == [];
  }

  // ---- ordered logs --------------------------------------------------------------------

  /** In key order throughout, and no empty segment unless the log is empty. */
  ghost predicate Tidy(log: Log) {
    && Sorted(History(log))
    && (|log| > 1 ==> forall n :: 0 <= n < |log| ==> log[n] != [])
  }

  /** Where an entry of a segment stands in the history. */
  lemma HistoryIndex(log: Log, n: nat, i: nat)
    requires n < |log| && i < |log[n]|
    ensures var before := History(log[..n]); |before| + i < |History(log)| && History(log)[|before| + i] == log[n][i]
  {
    HistoryAround(log, n);
  }

  lemma BeforeInSegment(log: Log, n: nat, key: string)
    requires n < |log| && AllBefore(History(log), key)
    ensures AllBefore(log[n], key)
  {
    hide Less, History, EventMapKey;
    var history := History(log);
    forall i | 0 <= i < |log[n]| ensures Less(log[n][i].Key(), key) {
      HistoryIndex(log, n, i);
      assert log[n][i] in history;
    }
  }

  /** Everything an append from `cur` can do; it always ends at `cur`. */
  lemma AppendFromCur(cap: nat, log: Log, e: Entry, batch: bool)
    ensures var r, top := AppendAt(cap, log, Cur(log), e, batch), log[Cur(log)];
            && r.at == Cur(r.log) && (r.stored <==> e.event.size <= cap)
            && (Accepts(cap, top, e) ==> r.log == log[Cur(log) := MapPut(top, e)])
            && (!Accepts(cap, top, e) && r.stored ==> top != [] && r.log == log + [[e]])
            && (!r.stored ==> r.log == if top == [] && !batch then log else log + [[]])
  {
    hide PlaceAt, MapPut, Accepts;
    var n := Cur(log);
    var rolled := log + [[]];
    AppendFailsOnlyWhenOversized(cap, log, n, e, batch);
    AcceptedFits(cap, log[n], e);
    EmptySegmentAccepts(cap, e);
    PlaceUnfolds(cap, log, n, e);
    PlaceUnfolds(cap, rolled, n + 1, e);
    PutAppends([], e);
    assert [] + [e] == [e];
    assert rolled[n + 1 := [e]] == log + [[e]];
  }

  lemma AcceptedFits(cap: nat, seg: Segment, e: Entry)
    ensures Accepts(cap, seg, e) ==> e.event.size <= cap
  {
    PutCosts(seg, e);
  }

  /** An up-to-date writer with increasing keys appends at the end of one ordered list. */
  lemma AppendExtendsHistory(cap: nat, log: Log, e: Entry, batch: bool)
    requires Sorted(History(log)) && AllBefore(History(log), e.Key()) && e.event.size <= cap
    ensures var r := AppendAt(cap, log, Cur(log), e, batch);
            && r.stored && r.at == Cur(r.log) && History(r.log) == History(log) + [e] && Sorted(History(r.log))
            && (r.log == log[Cur(log) := log[Cur(log)] + [e]] || (log[Cur(log)] != [] && r.log == log + [[e]]))
  {
    hide Less, AppendAt, Accepts, MapPut, History, EventMapKey;
    var n := Cur(log);
    AppendFromCur(cap, log, e, batch);
    BeforeInSegment(log, n, e.Key());
    PutAppends(log[n], e);
    HistoryAround(log, n);
    assert log[n + 1..] == [];
    HistoryOfNone();
    HistoryOfUpdate(log, n, log[n] + [e]);
    HistorySplits(log, [[e]]);
    HistoryOfOne([e]);
    assert History(log[..n]) + (log[n] + [e]) + [] == History(log[..n]) + log[n] + [] + [e];
  }

  // ---- reads -----------------------------------------------------------------------------

  datatype ReadConfig = ReadConfig(numRecent: Option<nat>, after: Option<nat>)

  /** The walk goes from `cur` down and stops below the first segment without a match. */
  function StopIndex(segs: seq<Segment>, after: Option<nat>): (n: nat)
    ensures n <= |segs|
  {
    if segs == [] || after.None? then 0
    else if Matching(segs[|segs| - 1], after) == [] then |segs|
    else StopIndex(segs[..|segs| - 1], after)
  }

  /** What `_load_events` returns: the last N matches among the segments it walks. */
  function Answer(log: Log, config: ReadConfig): Segment {
    TakeLast(config.numRecent, Matching(History(log[StopIndex(log, config.after)..]), config.after))
  }

  /** What its caller asks for: the last N matches of the whole history. */
  function Query(history: Segment, config: ReadConfig): Segment {
    TakeLast(config.numRecent, Matching(history, config.after))
  }

  /** Segments hidden below the stop hold no match. */
  predicate NothingHidden(log: Log, after: Option<nat>) {
    Matching(History(log[..StopIndex(log, after)]), after) == []
  }

  /** Without a cutoff the walk is exact for arbitrary segment contents. */
  lemma AnswerWithoutCutoff(log: Log, numRecent: Option<nat>)
    ensures Answer(log, ReadConfig(numRecent, None)) == TakeLast(numRecent, History(log))
  {
    assert log[0..] == log;
    MatchingAll(History(log));
  }

  /**
   * With a cutoff it is exact if and only if the segments it did not walk hold no match, or it
   * already had as many as were asked for.
   */
  lemma AnswerIsExactIff(log: Log, config: ReadConfig)
    ensures Answer(log, config) == Query(History(log), config)
            <==> NothingHidden(log, config.after)
                 || (config.numRecent.Some?
                     && |Matching(History(log[StopIndex(log, config.after)..]), config.after)| >= config.numRecent.value)
  {
    var stop := StopIndex(log, config.after);
    assert log == log[..stop] + log[stop..];
    HistorySplits(log[..stop], log[stop..]);
    MatchingSplits(History(log[..stop]), History(log[stop..]), config.after);
    var hidden, seen := Matching(History(log[..stop]), config.after), Matching(History(log[stop..]), config.after);
    assert Matching(History(log), config.after) == hidden + seen;
    if hidden == [] {
      assert hidden + seen == seen;
    }
  }

  lemma TakesNoneIff(n: Option<nat>, seg: Segment)
    ensures TakeLast(n, seg) == [] <==> seg == [] || n == Some(0)
  {
  }

  /** An empty top segment hides every match below it. */
  lemma EmptyTopHidesMatches(log: Log, after: nat, numRecent: Option<nat>)
    requires log[Cur(log)] == []
    ensures Answer(log, ReadConfig(numRecent, Some(after))) == []
  {
    assert log[|log|..] == [];
  }

  /** So such a read is wrong unless there is no match or none was asked for. */
  lemma EmptyTopIsExactIff(log: Log, after: nat, numRecent: Option<nat>)
    requires log[Cur(log)] == []
    ensures Answer(log, ReadConfig(numRecent, Some(after))) == Query(History(log), ReadConfig(numRecent, Some(after)))
            <==> Matching(History(log), Some(after)) == [] || numRecent == Some(0)
  {
    hide Answer, Matching, History;
    EmptyTopHidesMatches(log, after, numRecent);
    TakesNoneIff(numRecent, Matching(History(log), Some(after)));
  }

  /** Exact for arbitrary contents as long as a segment without a match has none below it. */
  lemma AnswerWhenMatchesAreRecent(log: Log, config: ReadConfig)
    requires forall m, n :: 0 <= m < n < |log| && Matching(log[n], config.after) == [] ==> Matching(log[m], config.after) == []
    ensures Answer(log, config) == Query(History(log), config)
  {
    hide Matching, StopIndex, Answer, Query, History;
    var stop := StopIndex(log, config.after);
    StopsAtUnmatched(log, config.after);
    forall m | 0 <= m < stop ensures Matching(log[..stop][m], config.after) == [] {
      if m < stop - 1 {
        assert Matching(log[stop - 1], config.after) == [];
      }
    }
    NoMatchInAny(log[..stop], config.after);
    AnswerIsExactIff(log, config);
  }

  lemma {:induction false} NoMatchInAny(segs: seq<Segment>, after: Option<nat>)
    requires forall n :: 0 <= n < |segs| ==> Matching(segs[n], after) == []
    ensures Matching(History(segs), after) == []
  {
    if segs != [] {
      NoMatchInAny(segs[1..], after);
      MatchingSplits(segs[0], History(segs[1..]), after);
    }
  }

  lemma {:induction false} StopsAtUnmatched(segs: seq<Segment>, after: Option<nat>)
    ensures var n := StopIndex(segs, after); n > 0 ==> Matching(segs[n - 1], after) == []
  {
    if segs != [] && after.Some? && Matching(segs[|segs| - 1], after) != [] {
      StopsAtUnmatched(segs[..|segs| - 1], after);
    }
  }

  /** In a tidy log a segment without a match has no match below it. */
  lemma TidyHidesNothing(log: Log, after: Option<nat>)
    requires Tidy(log)
    ensures NothingHidden(log, after)
  {
    var stop := StopIndex(log, after);
    StopsAtUnmatched(log, after);
    if stop == 0 {
      assert log[..0] == [];
    } else {
      var n := stop - 1;
      assert log[..stop] == log[..n] + [log[n]];
      HistorySplits(log[..n], [log[n]]);
      HistoryOfOne(log[n]);
      var below := History(log[..n]);
      HistoryAround(log, n);
      NothingMatches(log[n], after);
      if log[n] == [] {
        assert below == [];
      } else {
        var y := log[n][0];
        KeysEndBeforeSentinel(y);
        assert History(log)[|below|] == y;
        forall i | 0 <= i < |below| ensures !InRange(CutoffKey(after.value), below[i].Key()) {
          assert History(log)[i] == below[i];
          if AtMost(CutoffKey(after.value), below[i].Key()) && CutoffKey(after.value) != below[i].Key() {
            LessTransitive(CutoffKey(after.value), below[i].Key(), y.Key());
          }
        }
      }
      NothingMatches(below, after);
      MatchingSplits(below, log[n], after);
    }
  }

  /** Hence reading a tidy log is querying the plain list. */
  lemma AnswerOfTidyLog(log: Log, config: ReadConfig)
    requires Tidy(log)
    ensures Answer(log, config) == Query(History(log), config)
  {
    TidyHidesNothing(log, config.after);
    AnswerIsExactIff(log, config);
  }

  // ---- the walk, step by step ---------------------------------------------------------------

  function Reverse(seg: Segment): (r: Segment)
    ensures |r| == |seg|
  {
    if seg == [] then [] else Reverse(seg[1..]) + [seg[0]]
  }

  lemma {:induction false} ReverseOfAppend(seg: Segment, e: Entry)
    ensures Reverse(seg + [e]) == [e] + Reverse(seg)
  {
    if seg == [] {
      assert seg + [e] == [e];
    } else {
      assert (seg + [e])[1..] == seg[1..] + [e];
      ReverseOfAppend(seg[1..], e);
    }
  }

  /** After segments next..cur: all their matches are collected, fewer than asked for, and none was empty. */
  ghost predicate WalkedTo(log: Log, next: nat, config: ReadConfig, collected: Segment)
    requires next <= |log|
  {
    && collected == Matching(History(log[next..]), config.after)
    && (config.numRecent.Some? ==> |collected| < config.numRecent.value)
    && StopIndex(log, config.after) == StopIndex(log[..next], config.after)
  }

  lemma WalkStarts(log: Log, config: ReadConfig)
    requires config.numRecent != Some(0)
    ensures WalkedTo(log, |log|, config, [])
  {
    assert log[..|log|] == log;
  }

  lemma MatchesFrom(log: Log, n: nat, after: Option<nat>)
    requires n < |log|
    ensures Matching(History(log[n..]), after) == Matching(log[n], after) + Matching(History(log[n + 1..]), after)
  {
    assert log[n..][1..] == log[n + 1..];
    MatchingSplits(log[n], History(log[n + 1..]), after);
  }

  /** What one segment read returns: its matches, or the part of its tail that is still needed. */
  function SegmentEntries(log: Log, n: nat, config: ReadConfig, have: nat): Segment
    requires n < |log| && (config.numRecent.Some? ==> have <= config.numRecent.value)
  {
    ReadRange(log[n], if config.numRecent.Some? then Some(config.numRecent.value - have) else None, config.after)
  }

  lemma StopBelow(log: Log, n: nat, config: ReadConfig, newer: Segment)
    requires n < |log| && WalkedTo(log, n + 1, config, newer)
    ensures config.after.None? || Matching(log[n], config.after) != []
            ==> StopIndex(log, config.after) == StopIndex(log[..n], config.after) <= n
    ensures config.after.Some? && Matching(log[n], config.after) == [] ==> StopIndex(log, config.after) == n + 1
  {
    assert log[..n + 1][..n] == log[..n] && log[..n + 1][n] == log[n];
  }

  /** The tail that satisfies the number asked for is the answer, wherever the walk would stop. */
  lemma TailIsAnswer(log: Log, n: nat, config: ReadConfig, tail: Segment)
    requires n <= |log| && StopIndex(log, config.after) <= n && config.numRecent.Some?
    requires |tail| == config.numRecent.value
    requires var matches := Matching(History(log[n..]), config.after);
             |tail| <= |matches| && tail == matches[|matches| - |tail|..]
    ensures tail == Answer(log, config)
  {
    var stop := StopIndex(log, config.after);
    assert log[stop..] == log[stop..n] + log[n..];
    HistorySplits(log[stop..n], log[n..]);
    MatchingSplits(History(log[stop..n]), History(log[n..]), config.after);
  }

  /** The loop over a segment's entries collected enough, when i of them are left. */
  lemma WalkIsSatisfied(log: Log, n: nat, config: ReadConfig, newer: Segment, i: nat)
    requires n < |log| && WalkedTo(log, n + 1, config, newer) && config.numRecent.Some?
    requires var entries := SegmentEntries(log, n, config, |newer|);
             i <= |entries| && |entries| - i + |newer| == config.numRecent.value
    ensures SegmentEntries(log, n, config, |newer|)[i..] + newer == Answer(log, config)
  {
    hide StopIndex, Answer, InRange, CutoffKey, History;
    var entries := SegmentEntries(log, n, config, |newer|);
    MatchesFrom(log, n, config.after);
    StopBelow(log, n, config, newer);
    if config.after.None? {
      MatchingAll(log[n]);
    }
    var matches := Matching(log[n], config.after) + newer;
    var tail := entries[i..] + newer;
    assert tail == matches[|matches| - |tail|..];
    TailIsAnswer(log, n, config, tail);
  }

  /** The walk stops at a segment without a match. */
  lemma WalkStops(log: Log, n: nat, config: ReadConfig, newer: Segment)
    requires n < |log| && WalkedTo(log, n + 1, config, newer)
    requires config.after.Some? && SegmentEntries(log, n, config, |newer|) == []
    ensures newer == Answer(log, config)
  {
    StopBelow(log, n, config, newer);
  }

  /** The walk goes on below a segment it collected whole. */
  lemma WalkGoesOn(log: Log, n: nat, config: ReadConfig, newer: Segment)
    requires n < |log| && WalkedTo(log, n + 1, config, newer)
    requires var entries := SegmentEntries(log, n, config, |newer|);
             && (config.after.Some? ==> entries != [])
             && (config.numRecent.Some? ==> |entries| + |newer| < config.numRecent.value)
    ensures WalkedTo(log, n, config, SegmentEntries(log, n, config, |newer|) + newer)
  {
    MatchesFrom(log, n, config.after);
    StopBelow(log, n, config, newer);
    if config.after.None? {
      MatchingAll(log[n]);
    }
  }

  lemma AskedForNone(log: Log, after: Option<nat>)
    ensures Answer(log, ReadConfig(Some(0), after)) == []
  {
  }

  lemma WalkEnds(log: Log, config: ReadConfig, collected: Segment)
    requires WalkedTo(log, 0, config, collected)
    ensures collected == Answer(log, config)
  {
    assert log[..0] == [] && log[0..] == log;
  }

  /** Entries at or after a time. */
  function Since(history: Segment, cutoff: nat): Segment {
    if history == [] then []
    else if history[0].at >= cutoff then [history[0]] + Since(history[1..], cutoff)
    else Since(history[1..], cutoff)
  }

  /** The key range is the time range, for times of up to twenty digits. */
  lemma {:induction false} MatchingIsSince(history: Segment, cutoff: nat)
    requires cutoff < 100_000_000_000_000_000_000 && forall i :: 0 <= i < |history| ==> history[i].at < 100_000_000_000_000_000_000
    ensures Matching(history, Some(cutoff)) == Since(history, cutoff)
  {
    if history != [] {
      CutoffSelects(cutoff, history[0].at, history[0].event.id);
      MatchingIsSince(history[1..], cutoff);
    }
  }
}
