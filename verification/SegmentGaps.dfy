/** Logs with empty segments, which rejected events leave behind, and what reads make of them. */
module SegmentGaps {
  import opened EventKeys
  import opened Options
  import opened Segments
  import opened SegmentLog
  import opened Text

  /**
   * The gaps of a log: how many of its oldest events lie below an empty segment that will stay
   * empty, and whether the last segment is empty now.
   */
  datatype Gap = Gap(sealed: nat, open: bool)

  const NO_EVENTS := Gap(0, true)

  /** All segments from g up to the last are in use, and g is the first or follows an empty one. */
  ghost predicate GapAt(log: Log, g: nat, sealed: nat) {
    && g <= Cur(log) && (g > 0 ==> log[g - 1] == [])
    && (forall n :: g <= n < Cur(log) ==> log[n] != [])
    && sealed == |History(log[..g])|
  }

  ghost predicate Gapped(log: Log, gap: Gap) {
    && Sorted(History(log)) && (gap.open <==> log[Cur(log)] == [])
    && exists g: nat :: GapAt(log, g, gap.sealed)
  }

  /** How many of the oldest events no read with a cutoff reaches, of a log of `count` events. */
  function Hidden(gap: Gap, count: nat): nat {
    if gap.open then count else gap.sealed
  }

  /** What an append by an up-to-date writer does to the gaps of a log of `count` events. */
  function AfterAppend(gap: Gap, count: nat, stored: bool, batch: bool): Gap {
    if stored then Gap(gap.sealed, false)
    else if gap.open && batch then Gap(count, true)
    else Gap(gap.sealed, true)
  }

  // ---- appends -------------------------------------------------------------------------------

  lemma EmptyLogIsGapped()
    ensures Gapped([[]], NO_EVENTS) && History([[]]) == []
  {
    HistoryOfOne([]);
    HistoryOfNone();
    var log: Log := [[]];
    assert log[..0] == [];
    assert GapAt(log, 0, 0);
  }

  lemma StoredKeepsGapped(cap: nat, log: Log, gap: Gap, e: Entry, batch: bool)
    requires Gapped(log, gap) && e.event.size <= cap && AllBefore(History(log), e.Key())
    ensures var r := AppendAt(cap, log, Cur(log), e, batch);
            History(r.log) == History(log) + [e] && Gapped(r.log, Gap(gap.sealed, false))
  {
    hide AppendAt, Sorted, AllBefore, History;
    var after := AppendAt(cap, log, Cur(log), e, batch).log;
    AppendExtendsHistory(cap, log, e, batch);
    var g: nat :| GapAt(log, g, gap.sealed);
    assert after[..g] == log[..g];
    assert GapAt(after, g, gap.sealed);
  }

  lemma RejectedKeepsGapped(cap: nat, log: Log, gap: Gap, e: Entry, batch: bool)
    requires Gapped(log, gap) && e.event.size > cap
    ensures var r := AppendAt(cap, log, Cur(log), e, batch);
            History(r.log) == History(log) && Gapped(r.log, AfterAppend(gap, |History(log)|, false, batch))
  {
    hide AppendAt, Sorted, History, Accepts;
    var after := AppendAt(cap, log, Cur(log), e, batch).log;
    AppendFromCur(cap, log, e, batch);
    AcceptedFits(cap, log[Cur(log)], e);
    RolloverKeepsHistory(log, Cur(log));
    var g: nat :| GapAt(log, g, gap.sealed);
    if !gap.open {
      assert after[..g] == log[..g];
      assert GapAt(after, g, gap.sealed);
    } else if batch {
      assert after[..|log|] == log;
      assert GapAt(after, |log|, |History(log)|);
    }
  }

  /** Every append by an up-to-date writer, stored or rejected, is tracked by the gaps. */
  lemma AppendKeepsGapped(cap: nat, log: Log, gap: Gap, e: Entry, batch: bool)
    requires Gapped(log, gap) && (e.event.size <= cap ==> AllBefore(History(log), e.Key()))
    ensures var r := AppendAt(cap, log, Cur(log), e, batch);
            && History(r.log) == History(log) + (if e.event.size <= cap then [e] else [])
            && Gapped(r.log, AfterAppend(gap, |History(log)|, e.event.size <= cap, batch))
  {
    hide AppendAt, Gapped, History, AllBefore;
    if e.event.size <= cap {
      StoredKeepsGapped(cap, log, gap, e, batch);
    } else {
      RejectedKeepsGapped(cap, log, gap, e, batch);
      assert History(log) + [] == History(log);
    }
  }

  // ---- reads -----------------------------------------------------------------------------------

  lemma MatchingNothing(after: nat)
    ensures Matching([], Some(after)) == []
  {
  }

  lemma {:induction false} StopAboveGap(older: seq<Segment>, newer: seq<Segment>, after: Option<nat>)
    requires after.Some? && (older == [] || older[|older| - 1] == [])
    ensures StopIndex(older + newer, after) == |older| + StopIndex(newer, after)
  {
    hide Matching;
    MatchingNothing(after.value);
    var segs := older + newer;
    if newer == [] {
      assert segs == older;
    } else {
      var n := |newer| - 1;
      assert segs[|segs| - 1] == newer[n];
      assert segs[..|segs| - 1] == older + newer[..n];
      if Matching(newer[n], after) != [] {
        StopAboveGap(older, newer[..n], after);
      }
    }
  }

  /** What a read with a cutoff can find. */
  function Reachable(history: Segment, gap: Gap, after: Option<nat>): Segment
    requires Hidden(gap, |history|) <= |history|
  {
    if after.None? then history else history[Hidden(gap, |history|)..]
  }

  lemma SealedIsPrefix(log: Log, g: nat)
    requires g <= Cur(log)
    ensures History(log) == History(log[..g]) + History(log[g..])
  {
    assert log == log[..g] + log[g..];
    HistorySplits(log[..g], log[g..]);
  }

  /** The segments above the gap are a tidy log of their own, and the walk never leaves them. */
  lemma AnswerAboveGap(log: Log, gap: Gap, g: nat, config: ReadConfig)
    requires Gapped(log, gap) && GapAt(log, g, gap.sealed) && !gap.open && config.after.Some?
    ensures gap.sealed <= |History(log)| && Answer(log, config) == Query(History(log)[gap.sealed..], config)
  {
    hide StopIndex, Matching, History, InRange;
    var upper := log[g..];
    assert log == log[..g] + upper;
    SealedIsPrefix(log, g);
    assert History(log)[gap.sealed..] == History(upper);
    StopAboveGap(log[..g], upper, config.after);
    assert Sorted(History(upper)) by {
      SortedSuffix(History(log), gap.sealed);
    }
    AnswerOfTidyLog(upper, config);
    var stop := StopIndex(upper, config.after);
    assert log[g + stop..] == upper[stop..];
  }

  lemma SortedSuffix(seg: Segment, n: nat)
    requires Sorted(seg) && n <= |seg|
    ensures Sorted(seg[n..])
  {
    hide Less, EventMapKey;
  }

  /** A read returns the query of exactly what the gaps leave within reach. */
  lemma AnswerOfGappedLog(log: Log, gap: Gap, config: ReadConfig)
    requires Gapped(log, gap)
    ensures gap.sealed <= |History(log)| && Answer(log, config) == Query(Reachable(History(log), gap, config.after), config)
  {
    hide Answer, Matching, History, Sorted;
    var history := History(log);
    var g: nat :| GapAt(log, g, gap.sealed);
    SealedIsPrefix(log, g);
    if config.after.None? {
      AnswerWithoutCutoff(log, config.numRecent);
      MatchingAll(history);
    } else if gap.open {
      EmptyTopHidesMatches(log, config.after.value, config.numRecent);
      assert history[|history|..] == [];
      NothingMatches([], config.after);
    } else {
      AnswerAboveGap(log, gap, g, config);
    }
  }

  // ---- when that is exact -------------------------------------------------------------------------

  /** In a sorted list, once an event is past the cutoff all later ones are. */
  lemma {:induction false} RestMatches(list: Segment, after: nat)
    requires Sorted(list) && list != [] && InRange(CutoffKey(after), list[0].Key())
    ensures Matching(list, Some(after)) == list
  {
    if |list| > 1 {
      LaterInRange(after, list[0], list[1]);
      RestMatches(list[1..], after);
    } else {
      assert list[1..] == [];
    }
  }

  lemma LaterInRange(after: nat, x: Entry, y: Entry)
    requires Less(x.Key(), y.Key()) && InRange(CutoffKey(after), x.Key())
    ensures InRange(CutoffKey(after), y.Key())
  {
    KeysEndBeforeSentinel(y);
    if CutoffKey(after) != x.Key() {
      LessTransitive(CutoffKey(after), x.Key(), y.Key());
    }
  }

  lemma HiddenMatch(list: Segment, h: nat, after: nat)
    requires Sorted(list) && 0 < h <= |list|
    ensures !InRange(CutoffKey(after), list[h - 1].Key()) ==> Matching(list[..h], Some(after)) == []
    ensures InRange(CutoffKey(after), list[h - 1].Key())
            ==> Matching(list[..h], Some(after)) != [] && Matching(list[h..], Some(after)) == list[h..]
  {
    hide InRange, CutoffKey, EventMapKey, Less, Matching;
    var hidden, rest := list[..h], list[h..];
    NothingMatches(hidden, Some(after));
    if InRange(CutoffKey(after), list[h - 1].Key()) {
      assert hidden[h - 1] == list[h - 1];
      if rest == [] {
        MatchingNothing(after);
      } else {
        assert Less(list[h - 1].Key(), list[h].Key());
        LaterInRange(after, list[h - 1], list[h]);
        SortedSuffix(list, h);
        RestMatches(rest, after);
      }
    } else {
      forall i | 0 <= i < h ensures !InRange(CutoffKey(after), hidden[i].Key()) {
        if i < h - 1 && InRange(CutoffKey(after), list[i].Key()) {
          assert Less(list[i].Key(), list[h - 1].Key());
          LaterInRange(after, list[i], list[h - 1]);
        }
      }
    }
  }

  /**
   * A read is what the plain list would give if and only if it has no cutoff, or no event is
   * hidden, or the newest hidden event is before the cutoff, or the caller asks for no more
   * events than are in reach.
   */
  lemma ReachableIsExactIff(list: Segment, gap: Gap, config: ReadConfig)
    requires Sorted(list) && gap.sealed <= |list|
    ensures var h := Hidden(gap, |list|);
            Query(Reachable(list, gap, config.after), config) == Query(list, config)
            <==> config.after.None? || h == 0 || !InRange(CutoffKey(config.after.value), list[h - 1].Key())
                 || (config.numRecent.Some? && config.numRecent.value <= |list| - h)
  {
    hide InRange, CutoffKey, EventMapKey, Less, Matching;
    var h := Hidden(gap, |list|);
    if config.after.Some? {
      assert list == list[..h] + list[h..];
      MatchingSplits(list[..h], list[h..], config.after);
      if h == 0 {
        assert list[..0] == [] && list[0..] == list;
      } else {
        HiddenMatch(list, h, config.after.value);
        TakeAcross(config.numRecent, Matching(list[..h], config.after), Matching(list[h..], config.after));
      }
    }
  }

  /** Taking the last of two lists misses the older one unless it is empty or not needed. */
  lemma TakeAcross(n: Option<nat>, older: Segment, newer: Segment)
    ensures TakeLast(n, older + newer) == TakeLast(n, newer) <==> older == [] || (n.Some? && n.value <= |newer|)
  {
    if older == [] {
      assert older + newer == newer;
    } else if n.Some? && n.value <= |newer| {
      assert LastN(older + newer, n.value) == LastN(newer, n.value);
    } else {
      assert |TakeLast(n, newer)| == |newer| < |TakeLast(n, older + newer)|;
    }
  }

  // ---- one rejected event ---------------------------------------------------------------------------

  /**
   * After one append to a tidy log in use, a read with a cutoff and no count is what the list
   * gives if and only if the event fitted or the newest event is before the cutoff.
   */
  lemma RejectionHidesMatchesIff(cap: nat, log: Log, e: Entry, batch: bool, after: nat)
    requires Tidy(log) && log[Cur(log)] != [] && AllBefore(History(log), e.Key())
    ensures var r := AppendAt(cap, log, Cur(log), e, batch);
            Answer(r.log, ReadConfig(None, Some(after))) == Query(History(r.log), ReadConfig(None, Some(after)))
            <==> e.event.size <= cap || Matching(History(log), Some(after)) == []
  {
    hide AppendAt, Answer, Matching, AllBefore, Sorted;
    var r := AppendAt(cap, log, Cur(log), e, batch);
    TidyIsGapped(log);
    AppendKeepsGapped(cap, log, Gap(0, false), e, batch);
    AnswerOfGappedLog(r.log, AfterAppend(Gap(0, false), |History(log)|, e.event.size <= cap, batch), ReadConfig(None, Some(after)));
    if e.event.size <= cap {
      assert History(r.log)[0..] == History(r.log);
    } else {
      assert History(log)[|History(log)|..] == [] && History(log) + [] == History(log);
      MatchingNothing(after);
    }
  }

  lemma TidyIsGapped(log: Log)
    requires Tidy(log) && log[Cur(log)] != []
    ensures Gapped(log, Gap(0, false))
  {
    HistoryOfNone();
    assert log[..0] == [];
    assert GapAt(log, 0, 0);
  }

  /**
   * A rejected batch append on top of an empty segment leaves that segment empty for good: the
   * next event goes above it, and from then on a read with a cutoff stops there.
   */
  lemma RejectedBatchLeavesGap(cap: nat, log: Log, x: Entry, e: Entry, batch: bool, after: nat)
    requires log[Cur(log)] == [] && x.event.size > cap && e.event.size <= cap
    ensures var rejected := AppendAt(cap, log, Cur(log), x, true).log;
            var stored := AppendAt(cap, rejected, Cur(rejected), e, batch).log;
            stored == log + [[e]] && Answer(stored, ReadConfig(None, Some(after))) == Matching([e], Some(after))
  {
    hide AppendAt, Matching, MapPut;
    var rejected := log + [[]];
    AppendFromCur(cap, log, x, true);
    AcceptedFits(cap, log[Cur(log)], x);
    EmptySegmentAccepts(cap, e);
    AppendFromCur(cap, rejected, e, batch);
    PutAppends([], e);
    assert [] + [e] == [e];
    var stored := log + [[e]];
    assert rejected[|log| := [e]] == stored;
    StopAboveGap(log, [[e]], Some(after));
    StopOfOne(e, after);
    HistoryOfOne([e]);
    HistoryOfNone();
    MatchingNothing(after);
    var stop := StopIndex([[e]], Some(after));
    assert stored[|log| + stop..] == [[e]][stop..];
    assert [[e]][0..] == [[e]] && [[e]][1..] == [];
  }

  lemma StopOfOne(e: Entry, after: nat)
    ensures StopIndex([[e]], Some(after)) == if Matching([e], Some(after)) == [] then 1 else 0
  {
    assert [[e]][..0] == [];
  }
}
