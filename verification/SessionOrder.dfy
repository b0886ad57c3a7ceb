/** Runs in which events come late: what every read keeps, and when order and cutoff reads go wrong. */
module SessionOrder {
  import opened EventKeys
  import opened Options
  import opened ScopedState
  import opened SegmentGaps
  import opened SegmentLog
  import opened SegmentOrder
  import opened Segments
  import opened SessionWorld
  import opened Text

  /** The keys of stored events are new in their session; they may come in any order. */
  predicate FreshKeys(cap: nat, ops: seq<Op>) {
    ops == [] ||
    (FreshKeys(cap, Init(ops)) &&
     match Last(ops)
     case Append(i, e, _) => e.event.size <= cap ==> !HasKey(ListOf(cap, Init(ops), i), e.Key())
     case _ => true)
  }

  /** Whatever the order, the log of a session holds each event of its list once, and no other. */
  lemma {:induction false} LogConservesList(cap: nat, ops: seq<Op>, id: SessionId)
    requires Legal(ops) && FreshKeys(cap, ops) && Live(ops, id)
    ensures multiset(History(Run(cap, ops).sessions[id].log)) == multiset(ListOf(cap, ops, id))
  {
    hide Partition, HasKey, AppendAt, History;
    var before, op := Init(ops), Last(ops);
    if Live(before, id) {
      LogConservesList(cap, before, id);
      if op.Append? && op.id == id {
        AppendConservesList(cap, Run(cap, before).sessions[id].log, ListOf(cap, before, id), op.entry, UsesBatch(Partition(op.delta)));
      }
    } else {
      EmptyLogIsGapped();
    }
  }

  lemma AppendConservesList(cap: nat, log: Log, list: Segment, e: Entry, batch: bool)
    requires multiset(History(log)) == multiset(list) && (e.event.size <= cap ==> !HasKey(list, e.Key()))
    ensures multiset(History(AppendAt(cap, log, Cur(log), e, batch).log)) == multiset(list) + if e.event.size <= cap then multiset{e} else multiset{}
  {
    hide AppendAt, History, HasKey, Accepts, MapPut;
    AppendFailsOnlyWhenOversized(cap, log, Cur(log), e, batch);
    if e.event.size <= cap {
      if HasKey(History(log), e.Key()) {
        SameEntriesSameKeys(History(log), list, e.Key());
      }
      AppendConserves(cap, log, Cur(log), e, batch);
    } else {
      AppendFromCur(cap, log, e, batch);
      AcceptedFits(cap, log[Cur(log)], e);
      RolloverKeepsHistory(log, Cur(log));
    }
  }

  /** Stored matches only, none twice; and without a cutoff as many as asked for, or all. */
  ghost predicate ReadsWithin(cap: nat, ops: seq<Op>, id: SessionId, config: ReadConfig, events: Segment) {
    var list := ListOf(cap, ops, id);
    && multiset(events) <= multiset(Matching(list, config.after))
    && (config.after.None? ==> |events| == |TakeLast(config.numRecent, list)|)
    && (config == ReadConfig(None, None) ==> multiset(events) == multiset(list))
  }

  /** However late events come, no read invents or doubles one, and an unfiltered read loses none. */
  lemma ReadConservesList(cap: nat, ops: seq<Op>, id: SessionId, config: ReadConfig)
    requires Legal(ops) && FreshKeys(cap, ops) && Live(ops, id)
    ensures ReadsWithin(cap, ops, id, config, Answer(Run(cap, ops).sessions[id].log, config))
  {
    hide ListOf, Run, History, Answer, Matching;
    var log, list := Run(cap, ops).sessions[id].log, ListOf(cap, ops, id);
    LogConservesList(cap, ops, id);
    AnswerIsPart(log, config);
    MatchingOfSameEntries(History(log), list, config.after);
    AnswerWithoutCutoff(log, config.numRecent);
    TakeLastIsPart(config.numRecent, History(log));
    TakeLastIsPart(config.numRecent, list);
    assert |History(log)| == |multiset(History(log))| == |multiset(list)| == |list|;
  }

  lemma {:induction false} RunIsWellFormed(cap: nat, ops: seq<Op>, id: SessionId)
    requires Legal(ops) && Live(ops, id)
    ensures WellFormed(cap, Run(cap, ops).sessions[id].log)
  {
    hide Partition, AppendAt, Sorted;
    var before, op := Init(ops), Last(ops);
    if Live(before, id) {
      RunIsWellFormed(cap, before, id);
      if op.Append? && op.id == id {
        var log := Run(cap, before).sessions[id].log;
        AppendKeepsWellFormed(cap, log, Cur(log), op.entry, UsesBatch(Partition(op.delta)));
      }
    } else {
      EmptyIsWellFormed(cap);
    }
  }

  lemma EmptyIsWellFormed(cap: nat)
    ensures WellFormed(cap, [[]])
  {
  }

  /** Every stored event of the session went to the end of its history. */
  ghost predicate GrowsAtEnd(cap: nat, ops: seq<Op>, id: SessionId)
    requires Legal(ops)
  {
    ops == [] ||
    (GrowsAtEnd(cap, Init(ops), id) &&
     match Last(ops)
     case Append(i, e, _) => i == id && e.event.size <= cap ==> GoesToEnd(cap, Run(cap, Init(ops)).sessions[id].log, e)
     case _ => true)
  }

  lemma {:induction false} GrownAtEnd(cap: nat, ops: seq<Op>, id: SessionId)
    requires Legal(ops) && Live(ops, id) && GrowsAtEnd(cap, ops, id)
    ensures History(Run(cap, ops).sessions[id].log) == ListOf(cap, ops, id)
  {
    hide Partition, AppendAt, GoesToEnd, Sorted, History;
    var before, op := Init(ops), Last(ops);
    if Live(before, id) {
      GrownAtEnd(cap, before, id);
      if op.Append? && op.id == id {
        RunIsWellFormed(cap, before, id);
        StoredAtEndIff(cap, Run(cap, before).sessions[id].log, op.entry, UsesBatch(Partition(op.delta)));
      }
    } else {
      EmptyLogIsGapped();
    }
  }

  lemma StoredAtEndIff(cap: nat, log: Log, e: Entry, batch: bool)
    requires WellFormed(cap, log)
    ensures e.event.size <= cap
            ==> (History(AppendAt(cap, log, Cur(log), e, batch).log) == History(log) + [e] <==> GoesToEnd(cap, log, e))
    ensures e.event.size > cap ==> History(AppendAt(cap, log, Cur(log), e, batch).log) == History(log)
  {
    hide AppendAt, GoesToEnd, History, Accepts;
    if e.event.size <= cap {
      AppendsAtEndIff(cap, log, e, batch);
    } else {
      AppendFromCur(cap, log, e, batch);
      AcceptedFits(cap, log[Cur(log)], e);
      RolloverKeepsHistory(log, Cur(log));
    }
  }

  /**
   * In any legal run the history is the list, in the order of the appends, up to the first append
   * that does not go to the end, and not right after it: an event goes to the end exactly when it
   * opens a segment or comes after all keys of the last one.
   */
  lemma FirstOutOfOrder(cap: nat, ops: seq<Op>, id: SessionId)
    requires Legal(ops) && Live(ops, id) && GrowsAtEnd(cap, Init(ops), id)
    ensures History(Run(cap, ops).sessions[id].log) == ListOf(cap, ops, id) <==> GrowsAtEnd(cap, ops, id)
  {
    hide Partition, AppendAt, GoesToEnd, Sorted, History;
    var before, op := Init(ops), Last(ops);
    if GrowsAtEnd(cap, ops, id) {
      GrownAtEnd(cap, ops, id);
    } else {
      GrownAtEnd(cap, before, id);
      RunIsWellFormed(cap, before, id);
      StoredAtEndIff(cap, Run(cap, before).sessions[id].log, op.entry, UsesBatch(Partition(op.delta)));
    }
  }

  /** Increasing keys are new. */
  lemma {:induction false} OrderlyIsFresh(cap: nat, ops: seq<Op>)
    requires Orderly(cap, ops)
    ensures FreshKeys(cap, ops)
  {
    hide ListOf, HasKey, AllBefore;
    if ops != [] {
      OrderlyIsFresh(cap, Init(ops));
      if Last(ops).Append? {
        var list := ListOf(cap, Init(ops), Last(ops).id);
        if AllBefore(list, Last(ops).entry.Key()) {
          AllBeforeIsNew(list, Last(ops).entry.Key());
        }
      }
    }
  }

  lemma AllBeforeIsNew(list: Segment, key: string)
    requires AllBefore(list, key)
    ensures !HasKey(list, key)
  {
    hide Less;
    LessIrreflexive(key);
  }

  /** Every append of the run left the matches of a cutoff in reach. */
  ghost predicate StaysInReach(cap: nat, ops: seq<Op>, id: SessionId, after: nat)
    requires Legal(ops)
  {
    ops == [] ||
    (StaysInReach(cap, Init(ops), id, after) &&
     match Last(ops)
     case Append(i, e, _) => i == id ==> KeepsReach(cap, Run(cap, Init(ops)).sessions[id].log, e, after)
     case _ => true)
  }

  lemma {:induction false} ReachIsRecent(cap: nat, ops: seq<Op>, id: SessionId, after: nat)
    requires Legal(ops) && Live(ops, id) && StaysInReach(cap, ops, id, after)
    ensures MatchesAreRecent(Run(cap, ops).sessions[id].log, after)
  {
    hide Partition, KeepsReach, MatchesAreRecent, AppendAt;
    var before, op := Init(ops), Last(ops);
    if Live(before, id) {
      ReachIsRecent(cap, before, id, after);
      if op.Append? && op.id == id {
        KeptInReach(cap, Run(cap, before).sessions[id].log, op.entry, UsesBatch(Partition(op.delta)), after);
      }
    } else {
      OneSegmentIsRecent([], after);
    }
  }

  lemma OneSegmentIsRecent(seg: Segment, after: nat)
    ensures MatchesAreRecent([seg], after)
  {
  }

  /**
   * In any legal run, late and rejected events included, reads with a cutoff are right up to the
   * first append that does not leave its matches in reach, and wrong right after it.
   */
  lemma FirstWrongCutoffRead(cap: nat, ops: seq<Op>, id: SessionId, numRecent: Option<nat>, after: nat)
    requires Legal(ops) && Live(ops, id) && numRecent != Some(0)
    requires StaysInReach(cap, Init(ops), id, after)
    ensures var log := Run(cap, ops).sessions[id].log;
            var config := ReadConfig(numRecent, Some(after));
            Answer(log, config) == Query(History(log), config) <==> StaysInReach(cap, ops, id, after)
  {
    hide Partition, KeepsReach, MatchesAreRecent, AppendAt, Answer, Query, History;
    var before, op := Init(ops), Last(ops);
    var config := ReadConfig(numRecent, Some(after));
    if StaysInReach(cap, ops, id, after) {
      ReachIsRecent(cap, ops, id, after);
      RecentIsExact(Run(cap, ops).sessions[id].log, config, after);
    } else {
      ReachIsRecent(cap, before, id, after);
      CutoffReadStaysExactIff(cap, Run(cap, before).sessions[id].log, op.entry, UsesBatch(Partition(op.delta)), after, numRecent);
    }
  }

  lemma RecentIsExact(log: Log, config: ReadConfig, after: nat)
    requires MatchesAreRecent(log, after) && config.after == Some(after)
    ensures Answer(log, config) == Query(History(log), config)
  {
    hide Matching, Answer, Query;
    AnswerWhenMatchesAreRecent(log, config);
  }

  // ---- the time that a read reports ------------------------------------------------------------

  /** Events are keyed by their own time, which is not zero and has at most twenty digits. */
  predicate RealTimes(ops: seq<Op>) {
    forall i :: 0 <= i < |ops| && ops[i].Append?
      ==> ops[i].entry.at == ops[i].entry.event.micros && 0 < ops[i].entry.at < 100_000_000_000_000_000_000
  }

  lemma {:induction false} ListedWereAppended(cap: nat, ops: seq<Op>, id: SessionId, x: Entry)
    requires x in ListOf(cap, ops, id)
    ensures exists i :: 0 <= i < |ops| && ops[i].Append? && ops[i].entry == x
  {
    if ops != [] {
      var before := Init(ops);
      if x in ListOf(cap, before, id) {
        ListedWereAppended(cap, before, id, x);
        var i :| 0 <= i < |before| && before[i].Append? && before[i].entry == x;
        assert ops[i] == before[i];
      } else {
        assert ops[|ops| - 1] == Last(ops);
      }
    }
  }

  lemma {:induction false} MatchingKeepsOrder(seg: Segment, after: Option<nat>)
    requires Sorted(seg)
    ensures Sorted(Matching(seg, after)) && forall x :: x in Matching(seg, after) ==> x in seg
  {
    hide InRange, CutoffKey, Less, EventMapKey;
    if seg != [] {
      MatchingKeepsOrder(seg[1..], after);
      var rest := Matching(seg[1..], after);
      forall i | 0 <= i < |rest| ensures Less(seg[0].Key(), rest[i].Key()) {
        assert rest[i] in seg[1..];
      }
    }
  }

  /** A query of a sorted list is sorted and part of it. */
  lemma QueryKeepsOrder(list: Segment, config: ReadConfig)
    requires Sorted(list)
    ensures Sorted(Query(list, config)) && forall x :: x in Query(list, config) ==> x in list
  {
    hide Matching, Less, EventMapKey;
    MatchingKeepsOrder(list, config.after);
    var matches := Matching(list, config.after);
    SortedSuffix(matches, |matches| - |TakeLast(config.numRecent, matches)|);
  }

  /** In key order, the last event is the newest. */
  lemma LastIsNewest(events: Segment)
    requires Sorted(events) && events != [] && forall x :: x in events ==> x.at < 100_000_000_000_000_000_000
    ensures forall x :: x in events ==> x.at <= events[|events| - 1].at
  {
    hide Less, EventMapKey;
    var last := events[|events| - 1];
    forall i | 0 <= i < |events| ensures events[i].at <= last.at {
      if i < |events| - 1 {
        assert Less(events[i].Key(), last.Key());
        EventKeyOrder(events[i].at, events[i].event.id, last.at, last.event.id);
        assert events[i].Key() == EventMapKey(events[i].at, events[i].event.id) && last.Key() == EventMapKey(last.at, last.event.id);
      }
    }
  }

  /** No event is later than the time, and one of them has it. */
  ghost predicate IsNewestTime(events: Segment, time: nat) {
    && (forall x :: x in events ==> x.event.micros <= time)
    && exists x :: x in events && x.event.micros == time
  }

  /** With increasing keys and real times, the last event that a read returns has the newest time, and it is not zero. */
  lemma LastOfReadIsNewest(cap: nat, ops: seq<Op>, id: SessionId, config: ReadConfig, events: Segment)
    requires Legal(ops) && Orderly(cap, ops) && Live(ops, id) && RealTimes(ops)
    requires ReadsAs(cap, ops, id, config, events) && events != []
    ensures events[|events| - 1].event.micros != 0 && IsNewestTime(events, events[|events| - 1].event.micros)
  {
    hide ListOf, GapOf, Query, Sorted, Run;
    var list, gap := ListOf(cap, ops, id), GapOf(cap, ops, id);
    LogRefinesList(cap, ops, id);
    GappedIsSorted(Run(cap, ops).sessions[id].log, gap);
    assert Sorted(list);
    if config.after.Some? {
      SortedSuffix(list, Hidden(gap, |list|));
    }
    QueryKeepsOrder(Reachable(list, gap, config.after), config);
    forall x | x in events ensures x in list && x.at == x.event.micros && 0 < x.at < 100_000_000_000_000_000_000 {
      ListedWereAppended(cap, ops, id, x);
    }
    LastIsNewest(events);
    assert events[|events| - 1] in events;
  }
}
