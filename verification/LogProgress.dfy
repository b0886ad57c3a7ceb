/** That appends come to an end, and how: causes of failure, progress, and completion of a lone append. */
module LogProgress {
  import opened LogProtocol
  import opened LogInvariant
  import opened LogTheorems

  /** A step of call k itself. */
  predicate Own(a: Action, k: EventKey) {
    match a
    case ReadCur(j) => j == k
    case Resume(j) => j == k
    case PutOk(j) => j == k
    case PutRefused(j) => j == k
    case ReadSize(j) => j == k
    case BumpOk(j) => j == k
    case BumpFiltered(j) => j == k
    case RereadCur(j) => j == k
    case _ => false
  }

  /** A write of call k that was pushed back or timed out. */
  predicate Setback(a: Action, k: EventKey) {
    (a.PutPushedBack? || a.PutTimedOut? || a.BumpPushedBack? || a.BumpTimedOut?) && a.k == k
  }

  function OwnSteps(acts: seq<Action>, k: EventKey): nat {
    if acts == [] then 0 else OwnSteps(acts[..|acts| - 1], k) + if Own(acts[|acts| - 1], k) then 1 else 0
  }

  function Setbacks(acts: seq<Action>, k: EventKey): nat {
    if acts == [] then 0 else Setbacks(acts[..|acts| - 1], k) + if Setback(acts[|acts| - 1], k) then 1 else 0
  }

  // ---- no call is ever stuck ----------------------------------------------------------------------

  /** Until a call returned or gave up, some step of its own is possible that is no error. */
  lemma NeverStuck(cfg: Config, s: State, k: EventKey)
    requires k in s.calls && !s.calls[k].phase.Done? && !s.calls[k].phase.Failed?
    ensures exists a :: Own(a, k) && Enabled(cfg, s, a)
  {
    var c := s.calls[k];
    var a := match c.phase
      case Begin => ReadCur(k)
      case Putting(_) => if Fits(cfg, Seg(s.segments, c.at), k) then PutOk(k) else PutRefused(k)
      case Sizing => ReadSize(k)
      case Bumping(_) => if s.cur == c.at then BumpOk(k) else BumpFiltered(k)
      case Filtered => RereadCur(k)
      case _ => Resume(k);
    assert Own(a, k) && Enabled(cfg, s, a);
  }

  // ---- causes of failure -----------------------------------------------------------------------------

  function Tries(phase: Phase): nat {
    match phase
    case Putting(tries) => tries
    case Bumping(tries) => tries
    case _ => 0
  }

  /** What the errors of a call so far allow it to be. */
  predicate Caused(c: Call, setbacks: nat, aborted: bool) {
    && Tries(c.phase) <= setbacks && Tries(c.phase) <= 10
    && (c.phase == Failed(Backpressure) ==> setbacks >= 11)
    && (c.phase == Failed(OtherError) ==> aborted)
  }

  lemma CausedStep(cfg: Config, s: State, a: Action, k: EventKey, setbacks: nat, aborted: bool)
    requires Enabled(cfg, s, a) && k in s.calls && Caused(s.calls[k], setbacks, aborted)
    ensures k in Step(cfg, s, a).calls
    ensures Caused(Step(cfg, s, a).calls[k], setbacks + (if Setback(a, k) then 1 else 0), aborted || a == Abort(k))
  {
    hide ResumeStep;
    if a.Resume? {
      ResumedIsCaused(s, a.k, k, setbacks, aborted);
    }
  }

  lemma ResumedIsCaused(s: State, j: EventKey, k: EventKey, setbacks: nat, aborted: bool)
    requires j in s.calls && k in s.calls && Caused(s.calls[k], setbacks, aborted)
    requires var ph := s.calls[j].phase; ph.Seeded? || ph.Rolled? || ph.Stored?
    ensures k in ResumeStep(s, j).calls && Caused(ResumeStep(s, j).calls[k], setbacks, aborted)
  {
  }

  /**
   * A call gives up on an error only if it was interrupted, and on back-pressure only after its
   * writes were set back eleven times; the other two ways to fail have their own theorems.
   */
  lemma {:induction false} FailureHasCause(cfg: Config, run: seq<State>, acts: seq<Action>, i: nat, k: EventKey)
    requires IsRun(cfg, run, acts) && i < |run| && k in run[i].calls
    ensures Caused(run[i].calls[k], Setbacks(acts[..i], k), Abort(k) in acts[..i])
  {
    hide Step, Enabled, Caused;
    if i > 0 {
      assert acts[..i][..i - 1] == acts[..i - 1] && acts[..i][i - 1] == acts[i - 1];
      assert acts[..i] == acts[..i - 1] + [acts[i - 1]];
      if k in run[i - 1].calls {
        FailureHasCause(cfg, run, acts, i - 1, k);
        CausedStep(cfg, run[i - 1], acts[i - 1], k, Setbacks(acts[..i - 1], k), Abort(k) in acts[..i - 1]);
      } else {
        StartIsCaused(cfg, run[i - 1], acts[i - 1], k, Setbacks(acts[..i], k), Abort(k) in acts[..i]);
      }
    }
  }

  lemma StartIsCaused(cfg: Config, s: State, a: Action, k: EventKey, setbacks: nat, aborted: bool)
    requires Enabled(cfg, s, a) && k !in s.calls && k in Step(cfg, s, a).calls
    ensures Caused(Step(cfg, s, a).calls[k], setbacks, aborted)
  {
    hide ResumeStep, Fits, Seg, AllStored;
    if a.Resume? {
      ResumeMoves(s, a.k);
    }
  }

  // ---- every call ends ---------------------------------------------------------------------------------

  /** What is left of a call, setbacks included. */
  function Fuel(c: Call): int {
    (64 - c.attempt) * 40 +
    match c.phase
    case Begin => 39
    case Seeded(_) => 38
    case Putting(tries) => 37 - tries
    case Sizing => 26
    case Bumping(tries) => 25 - tries
    case Filtered => 3
    case Rolled(_) => 2
    case Stored => 1
    case _ => 0
  }

  lemma OwnStepBurns(cfg: Config, s: State, a: Action, k: EventKey)
    requires Enabled(cfg, s, a) && k in s.calls && Tries(s.calls[k].phase) <= 10
    ensures k in Step(cfg, s, a).calls
    ensures Own(a, k) || Setback(a, k) ==> Fuel(Step(cfg, s, a).calls[k]) < Fuel(s.calls[k])
    ensures Fuel(Step(cfg, s, a).calls[k]) <= Fuel(s.calls[k])
  {
    hide ResumeStep, Fits, Seg, AllStored;
    if a.Resume? {
      ResumeBurns(s, a.k, k);
    }
  }

  lemma ResumeBurns(s: State, j: EventKey, k: EventKey)
    requires j in s.calls && k in s.calls
    requires var ph := s.calls[j].phase; ph.Seeded? || ph.Rolled? || ph.Stored?
    ensures k in ResumeStep(s, j).calls
    ensures if j == k then Fuel(ResumeStep(s, j).calls[k]) < Fuel(s.calls[k]) else ResumeStep(s, j).calls[k] == s.calls[k]
  {
  }

  /** In every run a call takes at most 2600 steps, counting the writes that were set back. */
  lemma {:induction false} EveryCallEnds(cfg: Config, run: seq<State>, acts: seq<Action>, i: nat, k: EventKey)
    requires IsRun(cfg, run, acts) && i < |run| && k in run[i].calls
    ensures OwnSteps(acts[..i], k) + Setbacks(acts[..i], k) + Fuel(run[i].calls[k]) <= 2600
    ensures OwnSteps(acts[..i], k) + Setbacks(acts[..i], k) <= 2600
  {
    hide Step, Enabled, Fuel, Caused;
    EnoughFuel(cfg, run, acts, i, k);
    if i > 0 {
      assert acts[..i][..i - 1] == acts[..i - 1] && acts[..i][i - 1] == acts[i - 1];
      if k in run[i - 1].calls {
        EveryCallEnds(cfg, run, acts, i - 1, k);
        FailureHasCause(cfg, run, acts, i - 1, k);
        TriesOf(run[i - 1].calls[k], Setbacks(acts[..i - 1], k), Abort(k) in acts[..i - 1]);
        OwnStepBurns(cfg, run[i - 1], acts[i - 1], k);
      } else {
        NotYetBegun(cfg, run, acts, i - 1, k);
        StartsWithFuel(cfg, run[i - 1], acts[i - 1], k);
      }
    }
  }

  lemma TriesOf(c: Call, setbacks: nat, aborted: bool)
    requires Caused(c, setbacks, aborted)
    ensures Tries(c.phase) <= 10
  {
  }

  lemma EnoughFuel(cfg: Config, run: seq<State>, acts: seq<Action>, i: nat, k: EventKey)
    requires IsRun(cfg, run, acts) && i < |run| && k in run[i].calls
    ensures Fuel(run[i].calls[k]) >= 0
  {
    hide Inv, Step, Enabled, Caused;
    InvAlways(cfg, run, acts, i);
    Knows(cfg, run[i], k);
    FailureHasCause(cfg, run, acts, i, k);
    TriesOf(run[i].calls[k], Setbacks(acts[..i], k), Abort(k) in acts[..i]);
  }

  lemma StartsWithFuel(cfg: Config, s: State, a: Action, k: EventKey)
    requires Enabled(cfg, s, a) && k !in s.calls && k in Step(cfg, s, a).calls
    ensures !Own(a, k) && !Setback(a, k) && Fuel(Step(cfg, s, a).calls[k]) <= 2600
  {
    hide ResumeStep, Fits, Seg, AllStored;
    if a.Resume? {
      ResumeMoves(s, a.k);
    }
  }

  /** Before its start a call takes no step. */
  lemma {:induction false} NotYetBegun(cfg: Config, run: seq<State>, acts: seq<Action>, i: nat, k: EventKey)
    requires IsRun(cfg, run, acts) && i < |run| && k !in run[i].calls
    ensures OwnSteps(acts[..i], k) == 0 && Setbacks(acts[..i], k) == 0
  {
    hide Step, Enabled;
    if i > 0 {
      assert acts[..i][..i - 1] == acts[..i - 1] && acts[..i][i - 1] == acts[i - 1];
      CallsStay(cfg, run[i - 1], acts[i - 1], k);
      NotYetBegun(cfg, run, acts, i - 1, k);
    }
  }

  lemma CallsStay(cfg: Config, s: State, a: Action, k: EventKey)
    requires Enabled(cfg, s, a)
    ensures k in s.calls || Own(a, k) || Setback(a, k) ==> k in Step(cfg, s, a).calls && k in s.calls
  {
  }

  // ---- a lone append completes --------------------------------------------------------------------------

  /** Nothing of another writer is, or can land, above the index at which k began. */
  ghost predicate Clear(s: State, k: EventKey, base: nat) {
    && (forall n: nat {:trigger Seg(s.segments, n)} :: n > base ==> Seg(s.segments, n) <= {k})
    && (forall j, n: nat :: (j, n) in s.latePuts && j != k ==> n <= base)
  }

  /** Steps of k left when it targets at most three segments. */
  function Left(c: Call, batch: bool): int {
    (3 - Targets(c, batch)) * 6 +
    match c.phase
    case Begin => 7
    case Seeded(_) => 6
    case Putting(_) => 5
    case Sizing => 4
    case Bumping(_) => 3
    case Filtered => 2
    case Rolled(_) => 1
    case _ => 0
  }

  /** Steps left; a stored call has one more, a finished one none. */
  function StepsLeft(c: Call, batch: bool): int {
    match c.phase
    case Stored => 1
    case Done => 0
    case Failed(_) => 0
    case _ => Left(c, batch)
  }

  /** A call that had no more than ten setbacks and was not interrupted. */
  predicate LoneCall(cfg: Config, c: Call, k: EventKey, base: nat, batch: bool, setbacks: nat) {
    && c.base == base && 1 <= Targets(c, batch) <= 3
    && (c.phase.Begin? || c.phase.Seeded? ==> Targets(c, batch) == 1)
    && (Targets(c, batch) >= 2 ==> c.at + 2 >= base + Targets(c, batch))
    && (Targets(c, batch) == 3 ==> !c.phase.Bumping? && !c.phase.Filtered? && !c.phase.Rolled?)
    && (Targets(c, batch) == 3 && c.phase.Sizing? ==> cfg.cost(k) > cfg.cap)
    && Tries(c.phase) <= setbacks
    && (c.phase.Failed? ==> c.phase == Failed(Oversized))
  }

  ghost predicate Lone(cfg: Config, s: State, k: EventKey, base: nat, batch: bool, setbacks: nat) {
    Clear(s, k, base) && k in s.calls && LoneCall(cfg, s.calls[k], k, base, batch, setbacks)
  }

  lemma ClearStep(cfg: Config, s: State, a: Action, k: EventKey, base: nat)
    requires Enabled(cfg, s, a) && Quiet(a, k) && Clear(s, k, base)
    ensures Clear(Step(cfg, s, a), k, base)
  {
    var t := Step(cfg, s, a);
    assert a.LandPut? && a.k != k ==> a.n <= base;
    forall n: nat | n > base ensures Seg(t.segments, n) <= {k} {
      assert Seg(s.segments, n) <= {k};
    }
  }

  /** What the invariant says of a refused call: its segment lacks the event; above the base, only an oversized one is refused. */
  lemma RefusedKnows(cfg: Config, s: State, k: EventKey, base: nat)
    requires Inv(cfg, s) && Clear(s, k, base) && k in s.calls
    ensures s.calls[k].phase.Sizing? && Seg(s.segments, s.calls[k].at) == {} ==> cfg.cost(k) > cfg.cap
    ensures s.calls[k].phase.Sizing? && s.calls[k].at > base ==> Seg(s.segments, s.calls[k].at) == {}
    ensures s.calls[k].phase.Putting? && !Fits(cfg, Seg(s.segments, s.calls[k].at), k) && s.calls[k].at > base ==> cfg.cost(k) > cfg.cap
  {
    hide Fits;
    var c := s.calls[k];
    var seg := Seg(s.segments, c.at);
    Knows(cfg, s, k);
    if cfg.cost(k) <= cfg.cap && seg <= {k} {
      StorableFitsAlone(cfg, seg, k);
    }
    assert c.phase.Sizing? ==> k !in seg;
    assert c.at > base ==> seg <= {k};
  }

  /** A put that came back, or the size of the segment that refused it. */
  lemma LonePutStep(cfg: Config, s: State, a: Action, k: EventKey, base: nat, batch: bool, setbacks: nat)
    requires Enabled(cfg, s, a) && Own(a, k) && (a.PutOk? || a.PutRefused? || a.ReadSize?)
    requires k in s.calls && LoneCall(cfg, s.calls[k], k, base, batch, setbacks)
    requires s.calls[k].phase.Sizing? && Seg(s.segments, s.calls[k].at) == {} ==> cfg.cost(k) > cfg.cap
    requires s.calls[k].phase.Sizing? && s.calls[k].at > base ==> Seg(s.segments, s.calls[k].at) == {}
    requires a.PutRefused? && s.calls[k].at > base ==> cfg.cost(k) > cfg.cap
    ensures k in Step(cfg, s, a).calls && LoneCall(cfg, Step(cfg, s, a).calls[k], k, base, batch, setbacks)
    ensures StepsLeft(Step(cfg, s, a).calls[k], batch) < StepsLeft(s.calls[k], batch)
  {
    hide ResumeStep, Fits, Seg, AllStored;
  }

  /** An increment that came back, or a read of `cur`. */
  lemma LoneIndexStep(cfg: Config, s: State, a: Action, k: EventKey, base: nat, batch: bool, setbacks: nat)
    requires Enabled(cfg, s, a) && Own(a, k) && (a.ReadCur? || a.BumpOk? || a.BumpFiltered? || a.RereadCur?)
    requires k in s.calls && LoneCall(cfg, s.calls[k], k, base, batch, setbacks)
    ensures k in Step(cfg, s, a).calls && LoneCall(cfg, Step(cfg, s, a).calls[k], k, base, batch, setbacks)
    ensures StepsLeft(Step(cfg, s, a).calls[k], batch) < StepsLeft(s.calls[k], batch)
  {
    hide ResumeStep, Fits, Seg, AllStored;
  }

  lemma LoneOwnStep(cfg: Config, s: State, a: Action, k: EventKey, base: nat, batch: bool, setbacks: nat)
    requires Inv(cfg, s) && Lone(cfg, s, k, base, batch, setbacks)
    requires Enabled(cfg, s, a) && Own(a, k)
    ensures k in Step(cfg, s, a).calls && LoneCall(cfg, Step(cfg, s, a).calls[k], k, base, batch, setbacks)
    ensures StepsLeft(Step(cfg, s, a).calls[k], batch) < StepsLeft(s.calls[k], batch)
  {
    hide Inv, Step, Fits, Clear, Seg, Placement, PhaseFacts, LoneCall, StepsLeft;
    Knows(cfg, s, k);
    RefusedKnows(cfg, s, k, base);
    if a.Resume? {
      hide Enabled;
      ResumeIsStep(cfg, s, k);
      LoneResume(cfg, s, k, base, batch, setbacks);
    } else if a.PutOk? || a.PutRefused? || a.ReadSize? {
      LonePutStep(cfg, s, a, k, base, batch, setbacks);
    } else {
      LoneIndexStep(cfg, s, a, k, base, batch, setbacks);
    }
  }

  lemma LoneResume(cfg: Config, s: State, k: EventKey, base: nat, batch: bool, setbacks: nat)
    requires k in s.calls && LoneCall(cfg, s.calls[k], k, base, batch, setbacks) && IndexFacts(s.cur, s.calls[k])
    requires var ph := s.calls[k].phase; ph.Seeded? || ph.Rolled? || ph.Stored?
    ensures k in ResumeStep(s, k).calls && LoneCall(cfg, ResumeStep(s, k).calls[k], k, base, batch, setbacks)
    ensures StepsLeft(ResumeStep(s, k).calls[k], batch) < StepsLeft(s.calls[k], batch)
  {
  }

  lemma LoneOtherStep(cfg: Config, s: State, a: Action, k: EventKey, base: nat, batch: bool, setbacks: nat)
    requires k in s.calls && LoneCall(cfg, s.calls[k], k, base, batch, setbacks)
    requires Enabled(cfg, s, a) && Quiet(a, k) && !Own(a, k) && a != Abort(k)
    requires setbacks + (if Setback(a, k) then 1 else 0) <= 10
    ensures var t := Step(cfg, s, a);
            && k in t.calls && LoneCall(cfg, t.calls[k], k, base, batch, setbacks + (if Setback(a, k) then 1 else 0))
            && StepsLeft(t.calls[k], batch) <= StepsLeft(s.calls[k], batch)
  {
    hide ResumeStep;
  }

  lemma LoneStart(cfg: Config, s: State, a: Action, k: EventKey)
    requires Inv(cfg, s) && Enabled(cfg, s, a) && a.Start? && a.k == k
    ensures Lone(cfg, Step(cfg, s, a), k, s.cur, a.batch, 0)
    ensures StepsLeft(Step(cfg, s, a).calls[k], a.batch) <= 19
  {
    forall n: nat | n > s.cur ensures Seg(s.segments, n) <= {k} {
      EmptyAboveCur(cfg, s, n);
    }
  }

  lemma {:induction false} LoneThroughout(cfg: Config, run: seq<State>, acts: seq<Action>, i: nat, j: nat, k: EventKey)
    requires IsRun(cfg, run, acts) && i < j < |run| && acts[i].Start? && acts[i].k == k
    requires forall h :: i < h < j ==> Quiet(acts[h], k) && acts[h] != Abort(k)
    requires Setbacks(acts[i + 1..j], k) <= 10
    ensures Lone(cfg, run[j], k, run[i].cur, acts[i].batch, Setbacks(acts[i + 1..j], k))
    ensures OwnSteps(acts[i + 1..j], k) + StepsLeft(run[j].calls[k], acts[i].batch) <= 19
  {
    hide Inv, Step, Enabled, Quiet, Clear, LoneCall, StepsLeft;
    InvAlways(cfg, run, acts, j - 1);
    if j == i + 1 {
      LoneStart(cfg, run[i], acts[i], k);
      assert acts[i + 1..j] == [];
    } else {
      var before, a := acts[i + 1..j - 1], acts[j - 1];
      assert acts[i + 1..j][..j - i - 2] == before && acts[i + 1..j][j - i - 2] == a;
      LoneThroughout(cfg, run, acts, i, j - 1, k);
      ClearStep(cfg, run[j - 1], a, k, run[i].cur);
      if Own(a, k) {
        LoneOwnStep(cfg, run[j - 1], a, k, run[i].cur, acts[i].batch, Setbacks(before, k));
      } else {
        LoneOtherStep(cfg, run[j - 1], a, k, run[i].cur, acts[i].batch, Setbacks(before, k));
      }
    }
  }

  /**
   * An append while no other writer acts, not interrupted and set back at most ten times, never
   * fails if its event fits a record, and has stored it when it has taken nineteen steps of its
   * own; if the event does not fit, those steps end with the report that it is too big.
   */
  lemma LoneAppendCompletes(cfg: Config, run: seq<State>, acts: seq<Action>, i: nat, j: nat, k: EventKey)
    requires IsRun(cfg, run, acts) && i < j < |run| && acts[i].Start? && acts[i].k == k
    requires forall h :: i < h < j ==> Quiet(acts[h], k) && acts[h] != Abort(k)
    requires Setbacks(acts[i + 1..j], k) <= 10
    ensures k in run[j].calls
    ensures cfg.cost(k) <= cfg.cap ==> !run[j].calls[k].phase.Failed?
    ensures cfg.cost(k) > cfg.cap ==> !run[j].calls[k].phase.Stored? && !run[j].calls[k].phase.Done?
    ensures OwnSteps(acts[i + 1..j], k) >= 19
            ==> if cfg.cost(k) <= cfg.cap then run[j].calls[k].phase.Done? && StoredExactlyIn(run[j].segments, run[j].calls[k].at, k)
                else run[j].calls[k].phase == Failed(Oversized)
  {
    hide Inv, Step, Enabled, Quiet, Clear;
    LoneThroughout(cfg, run, acts, i, j, k);
    InvAlways(cfg, run, acts, j);
    Knows(cfg, run[j], k);
    OnlyOversizedEventsAreRejected(cfg, run, acts, j, k, run[j].calls[k].at);
    var c := run[j].calls[k];
    assert StepsLeft(c, acts[i].batch) <= 0 ==> c.phase.Done? || c.phase.Failed?;
    if c.phase.Done? {
      ReturnedAppendIsStored(cfg, run, acts, j, j, k);
    }
  }

  // ---- what single steps must do ---------------------------------------------------------------------------

  /** A call starts at the index its process has cached; without one it reads `cur` and targets that. */
  lemma FirstTarget(cfg: Config, s: State, k: EventKey, p: Process, batch: bool)
    requires Enabled(cfg, s, Start(k, p, batch))
    ensures var t := Step(cfg, s, Start(k, p, batch));
            && t.calls[k].process == p
            && if p in s.cache then t.calls[k].phase == Putting(0) && t.calls[k].at == s.cache[p]
               else
                 Enabled(cfg, t, ReadCur(k)) &&
                 var u := Step(cfg, t, ReadCur(k));
                 Enabled(cfg, u, Resume(k)) &&
                 var v := Step(cfg, u, Resume(k));
                 v.calls[k].phase == Putting(0) && v.calls[k].at == s.cur && p in v.cache && v.cache[p] == s.cur
  {
    hide Fits, Seg, AllStored;
  }

  /** A rollover ends at `cur`: the value that the increment gave, or the one that made its guard fail. */
  lemma RolloverReadsCur(cfg: Config, s: State, k: EventKey)
    ensures Enabled(cfg, s, BumpOk(k)) ==> var t := Step(cfg, s, BumpOk(k)); t.calls[k].phase == Rolled(t.cur) && t.cur == s.cur + 1
    ensures Enabled(cfg, s, RereadCur(k)) ==> Step(cfg, s, RereadCur(k)).calls[k].phase == Rolled(s.cur)
  {
    hide ResumeStep, Fits, Seg, AllStored;
  }

  /** A read caches the index it found, and each of its steps adds one segment until none is left. */
  lemma ReadAdvances(cfg: Config, s: State, r: ReaderId, p: Process)
    ensures Enabled(cfg, s, OpenRead(r, p))
            ==> var t := Step(cfg, s, OpenRead(r, p));
                Enabled(cfg, t, PublishRead(r)) && p in Step(cfg, t, PublishRead(r)).cache && Step(cfg, t, PublishRead(r)).cache[p] == s.cur
                && t.readers[r].next == s.cur + 1 && t.readers[r].got == multiset{}
    ensures r in s.readers && s.readers[r].next > 0
            ==> Enabled(cfg, s, ReadSegment(r)) &&
                var t := Step(cfg, s, ReadSegment(r));
                t.readers[r].next == s.readers[r].next - 1
                && t.readers[r].got == s.readers[r].got + multiset(Seg(s.segments, s.readers[r].next - 1))
  {
    hide ResumeStep, Fits;
  }

  /** A call that returns leaves the index of its segment in its process's cache. */
  lemma ReturnFillsCache(cfg: Config, s: State, k: EventKey)
    requires Enabled(cfg, s, Resume(k)) && Step(cfg, s, Resume(k)).calls[k].phase.Done?
    ensures var t := Step(cfg, s, Resume(k)); t.calls[k].process in t.cache && t.cache[t.calls[k].process] == t.calls[k].at
  {
  }

  /** A refused batch goes on to an increment, whatever the segment holds; a refused put reads the size first. */
  lemma RefusedBatchRollsOver(cfg: Config, s: State, k: EventKey)
    requires Enabled(cfg, s, PutRefused(k))
    ensures var t := Step(cfg, s, PutRefused(k));
            if s.calls[k].attempt == 0 then Enabled(cfg, t, BumpOk(k)) || Enabled(cfg, t, BumpFiltered(k)) else Enabled(cfg, t, ReadSize(k))
  {
    hide ResumeStep, Fits;
  }

  /** A write that was pushed back had no effect; one that was interrupted may land like one that timed out. */
  lemma OtherErrors(cfg: Config, s: State, k: EventKey)
    requires k in s.calls
    ensures Enabled(cfg, s, PutPushedBack(k))
            ==> var t := Step(cfg, s, PutPushedBack(k)); t.segments == s.segments && t.latePuts == s.latePuts && t.cur == s.cur
    ensures Enabled(cfg, s, BumpPushedBack(k))
            ==> var t := Step(cfg, s, BumpPushedBack(k)); t.segments == s.segments && t.lateBumps == s.lateBumps && t.cur == s.cur
    ensures Enabled(cfg, s, Abort(k)) && s.calls[k].phase.Putting? ==> Enabled(cfg, Step(cfg, s, Abort(k)), LandPut(k, s.calls[k].at))
    ensures Enabled(cfg, s, Abort(k)) && s.calls[k].phase.Bumping? ==> Enabled(cfg, Step(cfg, s, Abort(k)), LandBump(s.calls[k].at))
  {
    hide ResumeStep, Fits, Seg, AllStored;
  }

  /** A write that timed out may still land, with the effect it would have had. */
  lemma TimedOutWritesMayLand(cfg: Config, s: State, k: EventKey)
    requires k in s.calls
    ensures Enabled(cfg, s, PutTimedOut(k)) && Fits(cfg, Seg(s.segments, s.calls[k].at), k)
            ==> var t, n := Step(cfg, s, PutTimedOut(k)), s.calls[k].at;
                Enabled(cfg, t, LandPut(k, n)) && k in Seg(Step(cfg, t, LandPut(k, n)).segments, n)
    ensures Enabled(cfg, s, BumpTimedOut(k)) && s.cur == s.calls[k].at
            ==> var t, n := Step(cfg, s, BumpTimedOut(k)), s.calls[k].at;
                Enabled(cfg, t, LandBump(n)) && Step(cfg, t, LandBump(n)).cur == n + 1
  {
  }
}
