/** Events that come late: what an append of a smaller key does to the order and to cutoff reads. */
module SegmentOrder {
  import opened EventKeys
  import opened Options
  import opened Segments
  import opened SegmentGaps
  import opened SegmentLog
  import opened Text

  // ---- order -------------------------------------------------------------------------------------

  /** All keys of one list come before all keys of another. */
  ghost predicate Precedes(a: Segment, b: Segment) {
    forall i, j :: 0 <= i < |a| && 0 <= j < |b| ==> Less(a[i].Key(), b[j].Key())
  }

  lemma SortedConcat(a: Segment, b: Segment)
    ensures Sorted(a + b) <==> Sorted(a) && Sorted(b) && Precedes(a, b)
  {
    hide Less, EventMapKey;
    var c := a + b;
    if Sorted(c) {
      forall i, j | 0 <= i < j < |a| ensures Less(a[i].Key(), a[j].Key()) {
        assert c[i] == a[i] && c[j] == a[j];
      }
      forall i, j | 0 <= i < j < |b| ensures Less(b[i].Key(), b[j].Key()) {
        assert c[|a| + i] == b[i] && c[|a| + j] == b[j];
      }
      forall i, j | 0 <= i < |a| && 0 <= j < |b| ensures Less(a[i].Key(), b[j].Key()) {
        assert c[i] == a[i] && c[|a| + j] == b[j];
      }
    }
  }

  /** What precedes a segment and the entry precedes the segment with the entry, and back. */
  lemma PrecedesPut(a: Segment, seg: Segment, e: Entry)
    requires Precedes(a, seg)
    ensures Precedes(a, MapPut(seg, e)) <==> AllBefore(a, e.Key())
  {
    hide Less, EventMapKey, MapPut;
    var put := MapPut(seg, e);
    PutHas(seg, e, e);
    if AllBefore(a, e.Key()) {
      forall i, j | 0 <= i < |a| && 0 <= j < |put| ensures Less(a[i].Key(), put[j].Key()) {
        PutHas(seg, e, put[j]);
      }
    }
    if Precedes(a, put) {
      var j :| 0 <= j < |put| && put[j] == e;
      assert forall i :: 0 <= i < |a| ==> Less(a[i].Key(), put[j].Key());
    }
  }

  /**
   * An append keeps the log in key order if and only if its event comes after everything below
   * the segment that takes it.
   */
  lemma OrderKeptIff(cap: nat, log: Log, e: Entry, batch: bool)
    requires Sorted(History(log)) && e.event.size <= cap
    ensures var after := AppendAt(cap, log, Cur(log), e, batch).log;
            Sorted(History(after))
            <==> AllBefore(if Accepts(cap, log[Cur(log)], e) then History(log[..Cur(log)]) else History(log), e.Key())
  {
    hide Less, EventMapKey, MapPut, Accepts, AppendAt, Sorted, Precedes, AllBefore, History;
    var n := Cur(log);
    AppendFromCur(cap, log, e, batch);
    if Accepts(cap, log[n], e) {
      var older := History(log[..n]);
      HistoryAround(log, n);
      HistoryOfUpdate(log, n, MapPut(log[n], e));
      HistoryOfNone();
      assert log[n + 1..] == [];
      assert older + log[n] + [] == older + log[n] && older + MapPut(log[n], e) + [] == older + MapPut(log[n], e);
      SortedConcat(older, log[n]);
      SortedConcat(older, MapPut(log[n], e));
      PutKeepsOrder(log[n], e);
      PrecedesPut(older, log[n], e);
    } else {
      HistorySplits(log, [[e]]);
      HistoryOfOne([e]);
      SortedConcat(History(log), [e]);
      PrecedesOne(History(log), e);
    }
  }

  lemma PrecedesOne(a: Segment, e: Entry)
    ensures Precedes(a, [e]) <==> AllBefore(a, e.Key())
    ensures Sorted([e])
  {
    hide Less, EventMapKey;
    if Precedes(a, [e]) {
      assert forall i :: 0 <= i < |a| ==> Less(a[i].Key(), [e][0].Key());
    }
  }

  /** A put of a new key goes to the end exactly when it comes after all keys of the segment. */
  lemma PutAtEndIff(seg: Segment, e: Entry)
    requires Sorted(seg)
    ensures MapPut(seg, e) == seg + [e] <==> AllBefore(seg, e.Key())
  {
    hide Less, EventMapKey, MapPut;
    if AllBefore(seg, e.Key()) {
      PutAppends(seg, e);
    }
    if MapPut(seg, e) == seg + [e] {
      PutKeepsOrder(seg, e);
      SortedConcat(seg, [e]);
      PrecedesOne(seg, e);
    }
  }

  /** When an append goes to the end of the history: in a new segment, or after all keys of the last. */
  predicate GoesToEnd(cap: nat, log: Log, e: Entry) {
    !Accepts(cap, log[Cur(log)], e) || forall i :: 0 <= i < |log[Cur(log)]| ==> Less(log[Cur(log)][i].Key(), e.Key())
  }

  lemma AppendsAtEndIff(cap: nat, log: Log, e: Entry, batch: bool)
    requires Sorted(log[Cur(log)]) && e.event.size <= cap
    ensures History(AppendAt(cap, log, Cur(log), e, batch).log) == History(log) + [e] <==> GoesToEnd(cap, log, e)
  {
    hide Less, EventMapKey, MapPut, Accepts, AppendAt, Sorted, History;
    var n := Cur(log);
    var top := log[n];
    AppendFromCur(cap, log, e, batch);
    PutAtEndIff(top, e);
    if Accepts(cap, top, e) {
      HistoryAround(log, n);
      HistoryOfUpdate(log, n, MapPut(top, e));
      HistoryOfNone();
      assert log[n + 1..] == [];
      SameEnds(History(log[..n]), MapPut(top, e), top + [e]);
      assert History(log[..n]) + top + [] + [e] == History(log[..n]) + (top + [e]);
      assert History(log[..n]) + MapPut(top, e) + [] == History(log[..n]) + MapPut(top, e);
    } else {
      HistorySplits(log, [[e]]);
      HistoryOfOne([e]);
    }
  }

  lemma SameEnds(a: Segment, b: Segment, c: Segment)
    ensures a + b == a + c <==> b == c
  {
    if a + b == a + c {
      assert b == (a + b)[|a|..] && c == (a + c)[|a|..];
    }
  }

  // ---- reads with a cutoff ---------------------------------------------------------------------

  /** A segment without a match has none below it, so a walk that stops there misses nothing. */
  ghost predicate MatchesAreRecent(log: Log, after: nat) {
    forall m, n :: 0 <= m < n < |log| && Matching(log[n], Some(after)) == [] ==> Matching(log[m], Some(after)) == []
  }

  /** Matching looks at keys only. */
  lemma {:induction false} MatchesAfterPut(seg: Segment, e: Entry, after: nat)
    ensures Matching(MapPut(seg, e), Some(after)) == []
            <==> Matching(seg, Some(after)) == [] && !InRange(CutoffKey(after), e.Key())
  {
    hide InRange, CutoffKey, EventMapKey, Less;
    MatchingNothing(after);
    if seg == [] {
      MatchingOne(e, after);
    } else if seg[0].Key() == e.Key() {
      assert ([e] + seg[1..])[1..] == seg[1..];
    } else if Less(e.Key(), seg[0].Key()) {
      assert ([e] + seg)[1..] == seg;
    } else {
      MatchesAfterPut(seg[1..], e, after);
      assert ([seg[0]] + MapPut(seg[1..], e))[1..] == MapPut(seg[1..], e);
    }
  }

  lemma MatchingOne(e: Entry, after: nat)
    ensures Matching([e], Some(after)) == if InRange(CutoffKey(after), e.Key()) then [e] else []
  {
    assert [e][1..] == [];
  }

  lemma {:induction false} NoMatchIff(segs: seq<Segment>, after: nat)
    ensures Matching(History(segs), Some(after)) == [] <==> forall n :: 0 <= n < |segs| ==> Matching(segs[n], Some(after)) == []
  {
    hide Matching;
    MatchingNothing(after);
    if segs != [] {
      NoMatchIff(segs[1..], after);
      MatchingSplits(segs[0], History(segs[1..]), Some(after));
      assert segs == [segs[0]] + segs[1..];
    }
  }

  /** When an append leaves every match in reach: it went into the last segment, or matches, or nothing did. */
  predicate KeepsReach(cap: nat, log: Log, e: Entry, after: nat) {
    || Accepts(cap, log[Cur(log)], e)
    || (e.event.size <= cap && InRange(CutoffKey(after), e.Key()))
    || Matching(History(log), Some(after)) == []
  }

  lemma KeptInReach(cap: nat, log: Log, e: Entry, batch: bool, after: nat)
    requires MatchesAreRecent(log, after) && KeepsReach(cap, log, e, after)
    ensures MatchesAreRecent(AppendAt(cap, log, Cur(log), e, batch).log, after)
  {
    hide InRange, CutoffKey, EventMapKey, MapPut, Accepts, AppendAt, Matching, History;
    var next := AppendAt(cap, log, Cur(log), e, batch).log;
    var top := log[Cur(log)];
    AppendFromCur(cap, log, e, batch);
    NoMatchIff(log, after);
    MatchesAfterPut(top, e, after);
    MatchingOne(e, after);
    MatchingNothing(after);
    forall m, n | 0 <= m < n < |next| && Matching(next[n], Some(after)) == [] ensures Matching(next[m], Some(after)) == [] {
      assert n < |log| ==> Matching(log[n], Some(after)) == [];
    }
  }

  lemma LostFromReach(cap: nat, log: Log, e: Entry, batch: bool, after: nat, numRecent: Option<nat>)
    requires MatchesAreRecent(log, after) && !KeepsReach(cap, log, e, after) && numRecent != Some(0)
    ensures var next := AppendAt(cap, log, Cur(log), e, batch).log;
            var config := ReadConfig(numRecent, Some(after));
            Answer(next, config) == [] && Query(History(next), config) != []
  {
    hide InRange, CutoffKey, EventMapKey, MapPut, Accepts, AppendAt, Matching, History, Answer;
    var next := AppendAt(cap, log, Cur(log), e, batch).log;
    var top := if e.event.size <= cap then [e] else [];
    AppendFromCur(cap, log, e, batch);
    EmptySegmentAccepts(cap, e);
    NoMatchIff(log, after);
    MatchingOne(e, after);
    MatchingNothing(after);
    assert log[Cur(log)] != [];
    assert next == log + [top];
    HistorySplits(log, [top]);
    HistoryOfOne(top);
    MatchingSplits(History(log), top, Some(after));
    TakesNoneIff(numRecent, Matching(History(next), Some(after)));
    UnmatchedTop(next, after, numRecent);
  }

  lemma UnmatchedTop(log: Log, after: nat, numRecent: Option<nat>)
    requires Matching(log[Cur(log)], Some(after)) == []
    ensures Answer(log, ReadConfig(numRecent, Some(after))) == []
  {
    assert log[|log|..] == [];
  }

  /**
   * One append, late, early or rejected: a read with a cutoff stays right if and only if the last
   * segment took the event, or the event is stored and matches, or nothing matched before.
   */
  lemma CutoffReadStaysExactIff(cap: nat, log: Log, e: Entry, batch: bool, after: nat, numRecent: Option<nat>)
    requires MatchesAreRecent(log, after) && numRecent != Some(0)
    ensures var next := AppendAt(cap, log, Cur(log), e, batch).log;
            var config := ReadConfig(numRecent, Some(after));
            Answer(next, config) == Query(History(next), config) <==> KeepsReach(cap, log, e, after)
  {
    hide Answer, Query, History, AppendAt, KeepsReach;
    var next := AppendAt(cap, log, Cur(log), e, batch).log;
    if KeepsReach(cap, log, e, after) {
      KeptInReach(cap, log, e, batch, after);
      AnswerWhenMatchesAreRecent(next, ReadConfig(numRecent, Some(after)));
    } else {
      LostFromReach(cap, log, e, batch, after, numRecent);
    }
  }

  /** A tidy log has its matches in reach of every cutoff. */
  lemma TidyIsRecent(log: Log, after: nat)
    requires Tidy(log)
    ensures MatchesAreRecent(log, after)
  {
    hide InRange, CutoffKey, EventMapKey, Less, Matching, History;
    forall m, n | 0 <= m < n < |log| && Matching(log[n], Some(after)) == [] ensures Matching(log[m], Some(after)) == [] {
      NothingMatches(log[m], Some(after));
      NothingMatches(log[n], Some(after));
      forall i | 0 <= i < |log[m]| ensures !InRange(CutoffKey(after), log[m][i].Key()) {
        SegmentsInOrder(log, m, n, i);
        if InRange(CutoffKey(after), log[m][i].Key()) {
          LaterInRange(after, log[m][i], log[n][0]);
        }
      }
    }
  }

  lemma SegmentsInOrder(log: Log, m: nat, n: nat, i: nat)
    requires Sorted(History(log)) && m < n < |log| && i < |log[m]| && log[n] != []
    ensures Less(log[m][i].Key(), log[n][0].Key())
  {
    hide Less, EventMapKey;
    HistoryIndex(log, m, i);
    HistoryIndex(log, n, 0);
    HistoryAround(log[..n], m);
    assert log[..n][..m] == log[..m] && log[..n][m] == log[m];
  }

  /**
   * Without any rejected event: an event at or after the cutoff fills a segment, a smaller key
   * opens the next, and the read stops there and returns nothing.
   */
  lemma LateEventHidesMatch(cap: nat, e: Entry, g: Entry, batch: bool, again: bool, after: nat)
    requires e.event.size <= cap && g.event.size <= cap < e.event.size + g.event.size && e.Key() != g.Key()
    requires InRange(CutoffKey(after), e.Key()) && !InRange(CutoffKey(after), g.Key())
    ensures var one := AppendAt(cap, [[]], 0, e, batch).log;
            var two := AppendAt(cap, one, Cur(one), g, again).log;
            two == [[e], [g]]
            && Answer(two, ReadConfig(None, Some(after))) == [] && Query(History(two), ReadConfig(None, Some(after))) == [e]
  {
    hide AppendAt, EventMapKey, History, Answer, InRange, CutoffKey;
    var none: seq<Segment>, empty: Segment := [], [];
    AppendToOne(cap, none, empty, e, batch);
    AppendToOne(cap, none, [e], g, again);
    assert none + [empty] == [[]] && none + [[e]] == [[e]] && [[e]] + [[g]] == [[e], [g]];
    MatchingOne(e, after);
    MatchingOne(g, after);
    UnmatchedTop([[e], [g]], after, None);
    HistorySplits([[e]], [[g]]);
    HistoryOfOne([e]);
    HistoryOfOne([g]);
    MatchingSplits([e], [g], Some(after));
  }

  // ---- contents, whatever the order -----------------------------------------------------------

  /** Matching picks the same entries from lists with the same entries. */
  lemma {:induction false} MatchingCounts(seg: Segment, after: Option<nat>, x: Entry)
    ensures multiset(Matching(seg, after))[x]
            == if after.None? || InRange(CutoffKey(after.value), x.Key()) then multiset(seg)[x] else 0
  {
    hide InRange, CutoffKey, EventMapKey;
    if seg != [] {
      MatchingCounts(seg[1..], after, x);
      assert seg == [seg[0]] + seg[1..];
    }
  }

  lemma MatchingOfSameEntries(a: Segment, b: Segment, after: Option<nat>)
    requires multiset(a) == multiset(b)
    ensures multiset(Matching(a, after)) == multiset(Matching(b, after))
  {
    hide Matching;
    forall x ensures multiset(Matching(a, after))[x] == multiset(Matching(b, after))[x] {
      MatchingCounts(a, after, x);
      MatchingCounts(b, after, x);
    }
  }

  lemma TakeLastIsPart(n: Option<nat>, seg: Segment)
    ensures multiset(TakeLast(n, seg)) <= multiset(seg)
    ensures |TakeLast(n, seg)| == if n.Some? && n.value < |seg| then n.value else |seg|
  {
    if n.Some? && n.value < |seg| {
      assert seg == seg[..|seg| - n.value] + seg[|seg| - n.value..];
    }
  }

  /** A read returns stored matches, none of them more often than it is stored, for any log. */
  lemma AnswerIsPart(log: Log, config: ReadConfig)
    ensures multiset(Answer(log, config)) <= multiset(Matching(History(log), config.after))
  {
    hide Matching, History, StopIndex, TakeLast;
    var stop := StopIndex(log, config.after);
    assert log == log[..stop] + log[stop..];
    HistorySplits(log[..stop], log[stop..]);
    MatchingSplits(History(log[..stop]), History(log[stop..]), config.after);
    TakeLastIsPart(config.numRecent, Matching(History(log[stop..]), config.after));
  }

  lemma SameEntriesSameKeys(a: Segment, b: Segment, key: string)
    requires multiset(a) == multiset(b)
    ensures HasKey(a, key) ==> HasKey(b, key)
  {
    if HasKey(a, key) {
      var i :| 0 <= i < |a| && a[i].Key() == key;
      assert a[i] in multiset(b);
      var j :| 0 <= j < |b| && b[j] == a[i];
    }
  }
}
