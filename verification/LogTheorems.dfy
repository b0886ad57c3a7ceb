/** What the append protocol guarantees over whole runs. */
module LogTheorems {
  import opened LogProtocol
  import opened LogInvariant

  // ---- one event, one segment --------------------------------------------------------

  /** Over all interleavings and all times, an event is in at most one segment. */
  lemma AtMostOneSegment(cfg: Config, run: seq<State>, acts: seq<Action>, i: nat, j: nat, k: EventKey, m: nat, n: nat)
    requires IsRun(cfg, run, acts) && i <= j < |run|
    requires k in Seg(run[i].segments, m) && k in Seg(run[j].segments, n)
    ensures m == n
  {
    InvAlways(cfg, run, acts, j);
    RunGrows(cfg, run, acts, i, j);
    assert k in Seg(run[j].segments, m);
    InvUnique(cfg, run[j]);
  }

  predicate Returned(s: State, k: EventKey) {
    k in s.calls && s.calls[k].phase.Done?
  }

  /** An event is in segment n and in no other. */
  predicate StoredExactlyIn(segments: Segments, n: nat, k: EventKey) {
    k in Seg(segments, n) && forall m :: m in segments && k in segments[m] ==> m == n
  }

  /** An append that returned put its event in exactly one segment, and there it stays. */
  lemma ReturnedAppendIsStored(cfg: Config, run: seq<State>, acts: seq<Action>, i: nat, j: nat, k: EventKey)
    requires IsRun(cfg, run, acts) && i <= j < |run| && Returned(run[i], k)
    ensures StoredExactlyIn(run[j].segments, run[i].calls[k].at, k)
  {
    InvAlways(cfg, run, acts, i);
    Knows(cfg, run[i], k);
    RunGrows(cfg, run, acts, i, j);
    InvAlways(cfg, run, acts, j);
    InvUnique(cfg, run[j]);
    var n := run[i].calls[k].at;
    assert k in Seg(run[j].segments, n);
    forall m | m in run[j].segments && k in run[j].segments[m] ensures m == n {
      assert k in Seg(run[j].segments, m);
    }
  }

  // ---- reads -------------------------------------------------------------------------------

  lemma SeenSurvivesStep(cfg: Config, s: State, a: Action, r: ReaderId)
    requires Enabled(cfg, s, a) && r in s.readers
    ensures var t := Step(cfg, s, a); r in t.readers && t.readers[r].seen == s.readers[r].seen
  {
  }

  lemma {:induction false} SeenIsFixed(cfg: Config, run: seq<State>, acts: seq<Action>, i: nat, j: nat, r: ReaderId)
    requires IsRun(cfg, run, acts) && i <= j < |run| && r in run[i].readers
    ensures r in run[j].readers && run[j].readers[r].seen == run[i].readers[r].seen
  {
    hide Step, Enabled;
    if i < j {
      SeenIsFixed(cfg, run, acts, i, j - 1, r);
      SeenSurvivesStep(cfg, run[j - 1], acts[j - 1], r);
    }
  }

  /**
   * A full read that starts after an append returned holds its event exactly once, however
   * its segment reads interleave with puts and rollovers; and it never holds anything twice.
   */
  lemma ReadMissesNothing(cfg: Config, run: seq<State>, acts: seq<Action>, i: nat, j: nat, r: ReaderId, p: Process, k: EventKey)
    requires IsRun(cfg, run, acts) && i < j < |run| && acts[i] == OpenRead(r, p)
    requires r in run[j].readers && run[j].readers[r].next == 0
    ensures run[j].readers[r].got[k] <= 1
    ensures Returned(run[i], k) ==> run[j].readers[r].got[k] == 1
  {
    InvAlways(cfg, run, acts, j);
    SeenIsFixed(cfg, run, acts, i + 1, j, r);
    var rd := run[j].readers[r];
    assert ReaderFacts(run[j].segments, run[j].cur, rd);
    if Returned(run[i], k) {
      ReturnedAppendIsStored(cfg, run, acts, i, i, k);
      assert run[i + 1] == Step(cfg, run[i], acts[i]);
      var n := run[i].calls[k].at;
      assert n in run[i].segments && k in run[i].segments[n];
      assert k in rd.seen;
    }
  }

  /** No cached or local index is ahead of `cur`, and nothing is stored above it. */
  lemma NothingAboveCur(cfg: Config, run: seq<State>, acts: seq<Action>, i: nat, p: Process, k: EventKey, n: nat)
    requires IsRun(cfg, run, acts) && i < |run|
    ensures p in run[i].cache ==> run[i].cache[p] <= run[i].cur
    ensures k in run[i].calls ==> run[i].calls[k].at <= run[i].cur
    ensures k in run[i].calls && (run[i].calls[k].phase.Seeded? || run[i].calls[k].phase.Rolled?) ==> run[i].calls[k].phase.index <= run[i].cur
    ensures n > run[i].cur ==> Seg(run[i].segments, n) == {}
  {
    InvAlways(cfg, run, acts, i);
    if k in run[i].calls {
      Knows(cfg, run[i], k);
    }
    if n > run[i].cur {
      EmptyAboveCur(cfg, run[i], n);
    }
  }

  /** What `delete_session` leaves of the segments: it removes 0..cur+1. */
  function AfterDelete(s: State): Segments {
    map n | n in s.segments && n >= s.cur + 2 :: s.segments[n]
  }

  /** Deleting reclaims every event ever stored, so a session created anew reads back empty. */
  lemma DeleteReclaimsEverything(cfg: Config, run: seq<State>, acts: seq<Action>, i: nat)
    requires IsRun(cfg, run, acts) && i < |run|
    ensures forall n: nat :: Seg(AfterDelete(run[i]), n) == {}
  {
    forall n: nat ensures Seg(AfterDelete(run[i]), n) == {} {
      NothingAboveCur(cfg, run, acts, i, 0, "", n);
    }
  }

  // ---- rollovers ---------------------------------------------------------------------------

  predicate BumpAt(run: seq<State>, i: nat, n: nat) {
    i + 1 < |run| && run[i].cur == n && run[i + 1].cur == n + 1
  }

  lemma StepBumpsByOne(cfg: Config, s: State, a: Action)
    requires Enabled(cfg, s, a)
    ensures s.cur <= Step(cfg, s, a).cur <= s.cur + 1
  {
  }

  /** Each index is left at some step of the run ... */
  lemma {:induction false} BumpHappens(cfg: Config, run: seq<State>, acts: seq<Action>, j: nat, n: nat) returns (i: nat)
    requires IsRun(cfg, run, acts) && j < |run| && n < run[j].cur
    ensures i < j && BumpAt(run, i, n)
  {
    StepBumpsByOne(cfg, run[j - 1], acts[j - 1]);
    if n < run[j - 1].cur {
      i := BumpHappens(cfg, run, acts, j - 1, n);
    } else {
      i := j - 1;
    }
  }

  /** ... and only once: concurrent, retried and late increments of n all converge on n + 1. */
  lemma RolloversConverge(cfg: Config, run: seq<State>, acts: seq<Action>, h: nat, i: nat, n: nat)
    requires IsRun(cfg, run, acts) && BumpAt(run, h, n) && BumpAt(run, i, n)
    ensures h == i
  {
    if h < i {
      RunGrows(cfg, run, acts, h + 1, i);
    } else if i < h {
      RunGrows(cfg, run, acts, i + 1, h);
    }
  }

  /** A rollover from n that returns hands out an index above n. */
  lemma RolloverReturnsNewerIndex(cfg: Config, run: seq<State>, acts: seq<Action>, i: nat, k: EventKey)
    requires IsRun(cfg, run, acts) && i < |run| && k in run[i].calls && run[i].calls[k].phase.Rolled?
    ensures run[i].calls[k].at < run[i].calls[k].phase.index <= run[i].cur
  {
    InvAlways(cfg, run, acts, i);
    Knows(cfg, run[i], k);
  }

  lemma AttemptStep(cfg: Config, s: State, a: Action, k: EventKey)
    requires Enabled(cfg, s, a) && k in s.calls && IndexFacts(s.cur, s.calls[k])
    ensures k in Step(cfg, s, a).calls
    ensures var c, d := s.calls[k], Step(cfg, s, a).calls[k];
            d.attempt != c.attempt ==> d.attempt == c.attempt + 1 && d.at > c.at
  {
    hide ResumeStep;
    if a.Resume? {
      ResumeMoves(s, a.k);
    }
  }

  /** All a resumed call can do: move to its next target, finish, or give up. */
  lemma ResumeMoves(s: State, k: EventKey)
    requires k in s.calls && var ph := s.calls[k].phase; ph.Seeded? || ph.Rolled? || ph.Stored?
    ensures var t := ResumeStep(s, k);
            k in t.calls && t.calls == s.calls[k := t.calls[k]] && t.lateBumps == s.lateBumps && t.cur == s.cur
    ensures var c, d := s.calls[k], ResumeStep(s, k).calls[k];
            && !WasRefused(d.phase)
            && (d.attempt == c.attempt || (c.phase.Rolled? && d.attempt == c.attempt + 1 && d.at == c.phase.index))
  {
  }

  /** Successive attempts of one call target strictly increasing segments. */
  lemma AttemptsClimb(cfg: Config, run: seq<State>, acts: seq<Action>, i: nat, k: EventKey)
    requires IsRun(cfg, run, acts) && i < |acts| && k in run[i].calls
    ensures k in run[i + 1].calls
    ensures var c, d := run[i].calls[k], run[i + 1].calls[k];
            d.attempt != c.attempt ==> d.attempt == c.attempt + 1 && d.at > c.at
  {
    InvAlways(cfg, run, acts, i);
    Knows(cfg, run[i], k);
    hide Inv;
    AttemptStep(cfg, run[i], acts[i], k);
  }

  /** Action h is a put that segment n refused. */
  predicate RefusedPutAt(run: seq<State>, acts: seq<Action>, h: nat, n: nat) {
    h < |acts| && h < |run| && acts[h].PutRefused? && acts[h].k in run[h].calls && run[h].calls[acts[h].k].at == n
  }

  /** A put on segment n was refused before step i. */
  ghost predicate RefusedBefore(run: seq<State>, acts: seq<Action>, i: nat, n: nat) {
    exists h: nat :: h < i && RefusedPutAt(run, acts, h, n)
  }

  /** Everything that may move `cur` past n goes back to a refused put on n. */
  ghost predicate RefusalsOnRecord(run: seq<State>, acts: seq<Action>, i: nat)
    requires i < |run|
  {
    && (forall k :: k in run[i].calls && WasRefused(run[i].calls[k].phase) ==> RefusedBefore(run, acts, i, run[i].calls[k].at))
    && (forall n :: n in run[i].lateBumps ==> RefusedBefore(run, acts, i, n))
    && (forall n: nat :: n < run[i].cur ==> RefusedBefore(run, acts, i, n))
  }

  lemma {:induction false} RefusalsAreOnRecord(cfg: Config, run: seq<State>, acts: seq<Action>, i: nat)
    requires IsRun(cfg, run, acts) && i < |run|
    ensures RefusalsOnRecord(run, acts, i)
  {
    if i > 0 {
      RefusalsAreOnRecord(cfg, run, acts, i - 1);
      RecordGrows(cfg, run, acts, i - 1);
    }
  }

  /** A bump of n is under way, or may land late. */
  ghost predicate BumpPending(s: State, n: nat) {
    n in s.lateBumps || exists k :: k in s.calls && WasRefused(s.calls[k].phase) && s.calls[k].at == n
  }

  /** Only a refused put can start a bump. */
  lemma RefusedCallsStem(cfg: Config, s: State, a: Action, k: EventKey)
    requires Enabled(cfg, s, a)
    requires k in Step(cfg, s, a).calls && WasRefused(Step(cfg, s, a).calls[k].phase)
    ensures k in s.calls && Step(cfg, s, a).calls[k].at == s.calls[k].at
    ensures WasRefused(s.calls[k].phase) || a == PutRefused(k)
  {
    hide ResumeStep;
    if a.Resume? {
      ResumeMoves(s, a.k);
    }
  }

  lemma LateBumpsStem(cfg: Config, s: State, a: Action, n: nat)
    requires Enabled(cfg, s, a) && n in Step(cfg, s, a).lateBumps
    ensures BumpPending(s, n)
  {
  }

  lemma CurMovesByPendingBump(cfg: Config, s: State, a: Action)
    requires Enabled(cfg, s, a) && Step(cfg, s, a).cur != s.cur
    ensures Step(cfg, s, a).cur == s.cur + 1 && BumpPending(s, s.cur)
  {
  }

  lemma RecordGrows(cfg: Config, run: seq<State>, acts: seq<Action>, i: nat)
    requires IsRun(cfg, run, acts) && i < |acts| && RefusalsOnRecord(run, acts, i)
    ensures RefusalsOnRecord(run, acts, i + 1)
  {
    var s, t, a := run[i], run[i + 1], acts[i];
    assert t == Step(cfg, s, a);
    hide Step, Enabled;
    var next := i + 1;
    forall n: nat | RefusedBefore(run, acts, i, n) ensures RefusedBefore(run, acts, next, n) {
      var h: nat :| h < i && RefusedPutAt(run, acts, h, n);
    }
    forall n: nat | n in t.lateBumps || n < t.cur ensures RefusedBefore(run, acts, next, n) {
      if n in t.lateBumps {
        LateBumpsStem(cfg, s, a, n);
      } else if n >= s.cur {
        CurMovesByPendingBump(cfg, s, a);
      }
      assert RefusedBefore(run, acts, i, n);
    }
    forall k | k in t.calls && WasRefused(t.calls[k].phase) ensures RefusedBefore(run, acts, next, t.calls[k].at) {
      RefusedCallsStem(cfg, s, a, k);
      if a == PutRefused(k) {
        assert RefusedPutAt(run, acts, i, t.calls[k].at);
      }
    }
  }

  /** Every bump from n to n + 1 was preceded by a put that segment n refused. */
  lemma BumpFollowsRefusal(cfg: Config, run: seq<State>, acts: seq<Action>, i: nat, n: nat)
    requires IsRun(cfg, run, acts) && BumpAt(run, i, n)
    ensures RefusedBefore(run, acts, i, n)
  {
    RefusalsAreOnRecord(cfg, run, acts, i);
    CurMovesByPendingBump(cfg, run[i], acts[i]);
  }

  // ---- packing ------------------------------------------------------------------------------

  /** Bytes of segments 0..n-1. */
  ghost function TotalLoad(cfg: Config, segments: Segments, n: nat): nat {
    if n == 0 then 0 else TotalLoad(cfg, segments, n - 1) + Load(cfg, Seg(segments, n - 1))
  }

  lemma RefusingSegmentIsFull(cfg: Config, x: set<EventKey>, k: EventKey, largest: nat)
    requires !Fits(cfg, x, k) && cfg.cost(k) <= largest <= cfg.cap
    ensures Load(cfg, x) >= cfg.cap - largest + 1
  {
    LoadSplit(cfg, x + {k}, k);
    LoadMonotone(cfg, x + {k} - {k}, x);
  }

  /** If no event costs more than `largest`, every segment that was rolled over is nearly full. */
  lemma SealedSegmentsAreFull(cfg: Config, run: seq<State>, acts: seq<Action>, i: nat, largest: nat, n: nat)
    requires IsRun(cfg, run, acts) && i < |run| && largest <= cfg.cap && n < run[i].cur
    requires forall k :: k in run[i].calls ==> cfg.cost(k) <= largest
    ensures Load(cfg, Seg(run[i].segments, n)) >= cfg.cap - largest + 1
  {
    InvAlways(cfg, run, acts, i);
    assert RefusedBySome(cfg, run[i].segments, run[i].calls.Keys, n);
    var k :| k in run[i].calls && Refuses(cfg, run[i].segments, n, k);
    RefusingSegmentIsFull(cfg, Seg(run[i].segments, n), k, largest);
  }

  lemma {:induction false} FullSegmentsAddUp(cfg: Config, segments: Segments, n: nat, least: nat)
    requires forall m: nat :: m < n ==> Load(cfg, Seg(segments, m)) >= least
    ensures n * least <= TotalLoad(cfg, segments, n)
  {
    if n > 0 {
      FullSegmentsAddUp(cfg, segments, n - 1, least);
      assert n * least == (n - 1) * least + least;
    }
  }

  /** Hence the log is never longer than the bytes stored in it justify. */
  lemma PackingBound(cfg: Config, run: seq<State>, acts: seq<Action>, i: nat, largest: nat)
    requires IsRun(cfg, run, acts) && i < |run| && largest <= cfg.cap
    requires forall k :: k in run[i].calls ==> cfg.cost(k) <= largest
    ensures run[i].cur * (cfg.cap - largest + 1) <= TotalLoad(cfg, run[i].segments, run[i].cur)
  {
    var s := run[i];
    forall n: nat | n < s.cur ensures Load(cfg, Seg(s.segments, n)) >= cfg.cap - largest + 1 {
      SealedSegmentsAreFull(cfg, run, acts, i, largest, n);
    }
    FullSegmentsAddUp(cfg, s.segments, s.cur, cfg.cap - largest + 1);
  }

  // ---- failures ------------------------------------------------------------------------------

  /**
   * An append reports an oversized event only if it does not fit an empty segment, although the
   * size check is a later read that races with other writers; and such an event is never stored.
   */
  lemma OnlyOversizedEventsAreRejected(cfg: Config, run: seq<State>, acts: seq<Action>, i: nat, k: EventKey, n: nat)
    requires IsRun(cfg, run, acts) && i < |run|
    ensures k in run[i].calls && run[i].calls[k].phase == Failed(Oversized) ==> cfg.cost(k) > cfg.cap
    ensures cfg.cost(k) > cfg.cap ==> k !in Seg(run[i].segments, n)
  {
    InvAlways(cfg, run, acts, i);
    if k in run[i].calls {
      Knows(cfg, run[i], k);
    }
    if k in Seg(run[i].segments, n) {
      LoadSplit(cfg, Seg(run[i].segments, n), k);
    }
  }

  lemma {:induction false} CallBegan(cfg: Config, run: seq<State>, acts: seq<Action>, i: nat, k: EventKey) returns (h: nat)
    requires IsRun(cfg, run, acts) && i < |run| && k in run[i].calls
    ensures h < i && acts[h].Start? && acts[h].k == k && run[h].cur == run[i].calls[k].base
  {
    assert run[i] == Step(cfg, run[i - 1], acts[i - 1]);
    if k in run[i - 1].calls {
      h := CallBegan(cfg, run, acts, i - 1, k);
    } else {
      h := i - 1;
    }
  }

  /** The failure to converge takes at least 63 rollovers by others during the call. */
  lemma NotConvergedTakes63Rollovers(cfg: Config, run: seq<State>, acts: seq<Action>, i: nat, k: EventKey) returns (h: nat)
    requires IsRun(cfg, run, acts) && i < |run| && k in run[i].calls
    requires run[i].calls[k].phase == Failed(NotConverged)
    ensures h < i && acts[h].Start? && acts[h].k == k && run[h].cur + 63 <= run[i].cur
  {
    InvAlways(cfg, run, acts, i);
    Knows(cfg, run[i], k);
    h := CallBegan(cfg, run, acts, i, k);
  }

  // ---- progress ------------------------------------------------------------------------------

  /** Steps in which no other writer acts: those of k, reads, and writes that land late. */
  predicate Quiet(a: Action, k: EventKey) {
    !a.Start? && (a.LandPut? || a.LandBump? || a.OpenRead? || a.PublishRead? || a.ReadSegment? || a.k == k)
  }

  /** How many segments a call has targeted; a batch write adds one to the loop's attempts. */
  function Targets(c: Call, batch: bool): nat {
    c.attempt + if batch then 1 else 0
  }

  /** While nobody else writes, `cur` moves at most once, to a segment only k can fill. */
  ghost predicate AloneInLog(s: State, k: EventKey, base: nat) {
    && s.cur <= base + 1
    && (forall n: nat {:trigger Seg(s.segments, n)} :: n > base ==> Seg(s.segments, n) <= {k})
    && (forall n :: n in s.lateBumps ==> n <= base)
    && (forall j, n: nat :: (j, n) in s.latePuts && j != k ==> n <= base)
  }

  predicate AloneCall(c: Call, base: nat, batch: bool) {
    && c.base == base && 1 <= Targets(c, batch) <= 3
    && (c.phase.Begin? || c.phase.Seeded? ==> Targets(c, batch) == 1)
    && (Targets(c, batch) >= 2 ==> c.at + 2 >= base + Targets(c, batch))
  }

  ghost predicate Alone(s: State, k: EventKey, base: nat, batch: bool) {
    AloneInLog(s, k, base) && k in s.calls && AloneCall(s.calls[k], base, batch)
  }

  lemma StorableFitsAlone(cfg: Config, x: set<EventKey>, k: EventKey)
    requires x <= {k} && cfg.cost(k) <= cfg.cap
    ensures Fits(cfg, x, k)
  {
    assert x + {k} == {k};
    LoadOfOne(cfg, k);
  }

  /** Alone, k is only ever refused by segments that were there when it began. */
  lemma RefusedOnlyAtOldSegments(cfg: Config, s: State, k: EventKey, base: nat, batch: bool)
    requires Inv(cfg, s) && Alone(s, k, base, batch) && cfg.cost(k) <= cfg.cap
    ensures WasRefused(s.calls[k].phase) || (s.calls[k].phase.Putting? && !Fits(cfg, Seg(s.segments, s.calls[k].at), k))
            ==> s.calls[k].at <= base
  {
    Knows(cfg, s, k);
    if s.calls[k].at > base {
      StorableFitsAlone(cfg, Seg(s.segments, s.calls[k].at), k);
    }
  }

  lemma AloneLogStep(cfg: Config, s: State, a: Action, k: EventKey, base: nat)
    requires Enabled(cfg, s, a) && Quiet(a, k) && AloneInLog(s, k, base) && k in s.calls
    requires WasRefused(s.calls[k].phase) ==> s.calls[k].at <= base
    ensures AloneInLog(Step(cfg, s, a), k, base)
  {
    var t := Step(cfg, s, a);
    assert a.LandPut? && a.k != k ==> a.n <= base;
    forall n: nat | n > base ensures Seg(t.segments, n) <= {k} {
      assert Seg(s.segments, n) <= {k};
    }
  }

  lemma AloneResume(s: State, k: EventKey, base: nat, batch: bool)
    requires k in s.calls && AloneCall(s.calls[k], base, batch)
    requires s.calls[k].phase.Seeded? || s.calls[k].phase.Rolled? || s.calls[k].phase.Stored?
    requires IndexFacts(s.cur, s.calls[k]) && (WasRefused(s.calls[k].phase) ==> s.calls[k].at <= base)
    ensures k in ResumeStep(s, k).calls && AloneCall(ResumeStep(s, k).calls[k], base, batch)
  {
  }

  lemma ResumeIsStep(cfg: Config, s: State, k: EventKey)
    requires Enabled(cfg, s, Resume(k))
    ensures var ph := s.calls[k].phase; ph.Seeded? || ph.Rolled? || ph.Stored?
    ensures Step(cfg, s, Resume(k)) == ResumeStep(s, k)
  {
  }

  lemma AloneOtherStep(cfg: Config, s: State, a: Action, k: EventKey, base: nat, batch: bool)
    requires Enabled(cfg, s, a) && Quiet(a, k) && !a.Resume? && k in s.calls && AloneCall(s.calls[k], base, batch)
    ensures k in Step(cfg, s, a).calls && AloneCall(Step(cfg, s, a).calls[k], base, batch)
  {
    hide ResumeStep;
  }

  lemma AloneStep(cfg: Config, s: State, a: Action, k: EventKey, base: nat, batch: bool)
    requires Inv(cfg, s) && Alone(s, k, base, batch) && cfg.cost(k) <= cfg.cap
    requires Enabled(cfg, s, a) && Quiet(a, k)
    ensures Alone(Step(cfg, s, a), k, base, batch)
  {
    hide Inv, Step, Enabled;
    RefusedOnlyAtOldSegments(cfg, s, k, base, batch);
    Knows(cfg, s, k);
    AloneLogStep(cfg, s, a, k, base);
    if a.Resume? {
      ResumeIsStep(cfg, s, k);
      AloneResume(s, k, base, batch);
    } else {
      AloneOtherStep(cfg, s, a, k, base, batch);
    }
  }

  lemma AloneFromStart(cfg: Config, s: State, k: EventKey, p: Process, batch: bool)
    requires Inv(cfg, s) && Enabled(cfg, s, Start(k, p, batch))
    ensures Alone(Step(cfg, s, Start(k, p, batch)), k, s.cur, batch)
  {
    forall n: nat | n > s.cur ensures Seg(s.segments, n) <= {k} {
      EmptyAboveCur(cfg, s, n);
    }
  }

  lemma {:induction false} AloneThroughout(cfg: Config, run: seq<State>, acts: seq<Action>, i: nat, j: nat, k: EventKey)
    requires IsRun(cfg, run, acts) && i < j < |run| && acts[i].Start? && acts[i].k == k && cfg.cost(k) <= cfg.cap
    requires forall h :: i < h < j ==> Quiet(acts[h], k)
    ensures Alone(run[j], k, run[i].cur, acts[i].batch)
  {
    hide Inv, Step, Enabled, Alone, Quiet;
    InvAlways(cfg, run, acts, j - 1);
    if j == i + 1 {
      assert acts[i] == Start(k, acts[i].p, acts[i].batch);
      AloneFromStart(cfg, run[i], k, acts[i].p, acts[i].batch);
    } else {
      AloneThroughout(cfg, run, acts, i, j - 1, k);
      AloneStep(cfg, run[j - 1], acts[j - 1], k, run[i].cur, acts[i].batch);
    }
  }

  /**
   * A storable event appended while no other writer acts is tried in at most three segments,
   * even from a stale cached index, and never fails for its size or for lack of convergence.
   */
  lemma LoneWriterTriesThreeSegments(cfg: Config, run: seq<State>, acts: seq<Action>, i: nat, j: nat, k: EventKey)
    requires IsRun(cfg, run, acts) && i < j < |run| && acts[i].Start? && acts[i].k == k && cfg.cost(k) <= cfg.cap
    requires forall h :: i < h < j ==> Quiet(acts[h], k)
    ensures k in run[j].calls && 1 <= Targets(run[j].calls[k], acts[i].batch) <= 3
    ensures run[j].calls[k].phase != Failed(Oversized) && run[j].calls[k].phase != Failed(NotConverged)
  {
    AloneThroughout(cfg, run, acts, i, j, k);
    InvAlways(cfg, run, acts, j);
    Knows(cfg, run[j], k);
  }
}
