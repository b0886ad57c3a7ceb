/** What every step of the append protocol keeps. */
module LogInvariant {
  import opened LogProtocol

  /** Phases in which the call's event may sit in the segment it targets. */
  predicate MayHold(phase: Phase) {
    phase.Putting? || phase.Stored? || phase.Done? || phase.Failed?
  }

  /** Phases entered only after segment `at` refused the event. */
  predicate WasRefused(phase: Phase) {
    phase.Sizing? || phase.Bumping? || phase.Filtered? || phase.Rolled?
  }

  ghost predicate Refuses(cfg: Config, segments: Segments, n: nat, k: EventKey) {
    !Fits(cfg, Seg(segments, n), k)
  }

  /** The event of k is nowhere but where k last put it, and no late put of k can change that. */
  ghost predicate Placement(cfg: Config, segments: Segments, latePuts: set<(EventKey, nat)>, k: EventKey, c: Call) {
    && (forall n: nat {:trigger k in Seg(segments, n)} :: k in Seg(segments, n) ==> n == c.at && MayHold(c.phase))
    && (forall n: nat :: (k, n) in latePuts ==> (n == c.at && MayHold(c.phase)) || Refuses(cfg, segments, n, k))
  }

  /** What each phase knows. */
  ghost predicate PhaseFacts(cfg: Config, segments: Segments, k: EventKey, c: Call) {
    && (WasRefused(c.phase) ==> Refuses(cfg, segments, c.at, k))
    && (c.phase.Stored? || c.phase.Done? ==> k in Seg(segments, c.at))
    && (c.phase == Failed(Oversized) ==> cfg.cost(k) > cfg.cap)
  }

  /** Every index a call holds was read from `cur`, and attempts move up the log. */
  predicate IndexFacts(cur: nat, c: Call) {
    && c.at <= cur && c.base <= cur && c.attempt <= MAX_ATTEMPTS
    && (c.attempt >= 2 ==> c.base + c.attempt <= c.at + 2)
    && (c.phase.Filtered? ==> c.at < cur)
    && (c.phase.Begin? || c.phase.Seeded? ==> c.attempt <= 1)
    && (c.phase.Seeded? ==> c.phase.index <= cur)
    && (c.phase.Rolled? ==> c.at < c.phase.index <= cur && c.base <= c.phase.index)
    && (c.phase == Failed(NotConverged) ==> c.base + MAX_ATTEMPTS <= cur + 1)
  }

  ghost predicate RefusedBySome(cfg: Config, segments: Segments, callers: set<EventKey>, n: nat) {
    exists k :: k in callers && Refuses(cfg, segments, n, k)
  }

  /** An event is stored in some segment lo..hi-1. */
  ghost predicate StoredWithin(segments: Segments, lo: nat, hi: nat, k: EventKey) {
    exists n: nat {:trigger k in Seg(segments, n)} :: lo <= n < hi && k in Seg(segments, n)
  }

  ghost predicate Unique(segments: Segments) {
    forall k, m: nat, n: nat {:trigger k in Seg(segments, m), k in Seg(segments, n)} ::
      k in Seg(segments, m) && k in Seg(segments, n) ==> m == n
  }

  /** A reader holds exactly what it read, each event once, and will not miss what it saw stored. */
  ghost predicate ReaderFacts(segments: Segments, cur: nat, rd: Reader) {
    && rd.top <= cur && rd.next <= rd.top + 1
    && (forall k :: rd.got[k] <= 1)
    && (forall k :: k in rd.got ==> StoredWithin(segments, rd.next, rd.top + 1, k))
    && (forall k :: k in rd.seen ==> StoredWithin(segments, 0, rd.top + 1, k))
    && (forall k :: k in rd.seen && StoredWithin(segments, rd.next, rd.top + 1, k) ==> k in rd.got)
  }

  ghost predicate StoreFacts(cfg: Config, s: State) {
    && (forall n: nat :: Load(cfg, Seg(s.segments, n)) <= cfg.cap)
    && (forall n: nat, k {:trigger k in Seg(s.segments, n)} :: k in Seg(s.segments, n) ==> n <= s.cur && k in s.calls)
    && (forall k, n: nat :: (k, n) in s.latePuts ==> n <= s.cur && k in s.calls)
    && (forall n :: n in s.lateBumps ==> n <= s.cur && RefusedBySome(cfg, s.segments, s.calls.Keys, n))
    && (forall n: nat :: n < s.cur ==> RefusedBySome(cfg, s.segments, s.calls.Keys, n))
    && (forall p :: p in s.cache ==> s.cache[p] <= s.cur)
  }

  ghost predicate CallFacts(cfg: Config, s: State, k: EventKey)
    requires k in s.calls
  {
    Placement(cfg, s.segments, s.latePuts, k, s.calls[k]) && PhaseFacts(cfg, s.segments, k, s.calls[k]) && IndexFacts(s.cur, s.calls[k])
  }

  ghost predicate Inv(cfg: Config, s: State) {
    && StoreFacts(cfg, s)
    && (forall k :: k in s.calls ==> CallFacts(cfg, s, k))
    && (forall r :: r in s.readers ==> ReaderFacts(s.segments, s.cur, s.readers[r]))
  }

  lemma Knows(cfg: Config, s: State, k: EventKey)
    requires Inv(cfg, s) && k in s.calls
    ensures CallFacts(cfg, s, k)
  {
  }

  lemma LateBumpWasRefused(cfg: Config, s: State, n: nat)
    requires Inv(cfg, s) && n in s.lateBumps
    ensures RefusedBySome(cfg, s.segments, s.calls.Keys, n)
  {
  }

  lemma CachedIndexIsOld(cfg: Config, s: State, p: Process)
    requires Inv(cfg, s)
    ensures p in s.cache ==> s.cache[p] <= s.cur
  {
  }

  lemma EmptyAboveCur(cfg: Config, s: State, n: nat)
    requires Inv(cfg, s) && n > s.cur
    ensures Seg(s.segments, n) == {}
  {
    assert forall k :: k !in Seg(s.segments, n);
  }

  // ---- segments only grow -----------------------------------------------------------

  ghost predicate Grows(s: State, t: State) {
    s.cur <= t.cur && forall n: nat :: Seg(s.segments, n) <= Seg(t.segments, n)
  }

  lemma StepGrows(cfg: Config, s: State, a: Action)
    requires Enabled(cfg, s, a)
    ensures Grows(s, Step(cfg, s, a))
  {
  }

  /** The crux: a refusal by a segment is permanent. */
  lemma RefusalIsPermanent(cfg: Config, s: State, t: State, n: nat, k: EventKey)
    requires Grows(s, t) && Refuses(cfg, s.segments, n, k)
    ensures Refuses(cfg, t.segments, n, k)
  {
    LoadMonotone(cfg, Seg(s.segments, n) + {k}, Seg(t.segments, n) + {k});
  }

  lemma RefusalsPersist(cfg: Config, s: State, t: State)
    requires Grows(s, t)
    ensures forall n: nat, k :: Refuses(cfg, s.segments, n, k) ==> Refuses(cfg, t.segments, n, k)
  {
    forall n: nat, k | Refuses(cfg, s.segments, n, k) ensures Refuses(cfg, t.segments, n, k) {
      RefusalIsPermanent(cfg, s, t, n, k);
    }
  }

  /**
   * Its converse for retries: a segment never refuses an event it already holds, so a put that
   * is retried after it was applied always succeeds.
   */
  lemma OwnKeyFits(cfg: Config, s: State, n: nat, k: EventKey)
    requires Inv(cfg, s) && k in Seg(s.segments, n)
    ensures Fits(cfg, Seg(s.segments, n), k)
  {
    assert Seg(s.segments, n) + {k} == Seg(s.segments, n);
  }

  // ---- the four kinds of change --------------------------------------------------------

  /** Nothing stored changed: calls other than k are untouched. */
  lemma CallStep(cfg: Config, s: State, t: State, k: EventKey)
    requires Inv(cfg, s)
    requires t.segments == s.segments && s.cur <= t.cur && t.readers == s.readers
    requires forall j :: j in s.calls ==> j in t.calls && (j != k ==> t.calls[j] == s.calls[j])
    requires forall j :: j in t.calls ==> j in s.calls || j == k
    requires k in t.calls && CallFacts(cfg, t, k)
    requires forall j, n: nat :: (j, n) in t.latePuts && j != k ==> (j, n) in s.latePuts
    requires forall n: nat :: (k, n) in t.latePuts ==> n <= t.cur
    requires forall n :: n in t.lateBumps && n !in s.lateBumps ==> n <= t.cur && Refuses(cfg, t.segments, n, k)
    requires forall n: nat :: s.cur <= n < t.cur ==> RefusedBySome(cfg, s.segments, s.calls.Keys, n)
    requires forall p :: p in t.cache ==> t.cache[p] <= t.cur
    ensures Inv(cfg, t)
  {
    hide Fits, Load;
    forall n: nat | RefusedBySome(cfg, s.segments, s.calls.Keys, n) ensures RefusedBySome(cfg, t.segments, t.calls.Keys, n) {
      var j :| j in s.calls && Refuses(cfg, s.segments, n, j);
      assert j in t.calls && Refuses(cfg, t.segments, n, j);
    }
    forall j | j in t.calls && j != k ensures CallFacts(cfg, t, j) {
      assert CallFacts(cfg, s, j);
    }
    forall r | r in t.readers ensures ReaderFacts(t.segments, t.cur, t.readers[r]) {
      assert ReaderFacts(s.segments, s.cur, s.readers[r]);
    }
  }

  /** The event of k enters segment n, which k targets and which accepts it. */
  lemma PutStep(cfg: Config, s: State, n: nat, k: EventKey)
    requires Inv(cfg, s) && Fits(cfg, Seg(s.segments, n), k)
    requires k in s.calls && n == s.calls[k].at && MayHold(s.calls[k].phase)
    ensures Inv(cfg, PutInto(s, n, k))
  {
    var t := PutInto(s, n, k);
    assert Grows(s, t);
    RefusalsPersist(cfg, s, t);
    forall m: nat | RefusedBySome(cfg, s.segments, s.calls.Keys, m) ensures RefusedBySome(cfg, t.segments, t.calls.Keys, m) {
      var j :| j in s.calls && Refuses(cfg, s.segments, m, j);
      assert j in t.calls && Refuses(cfg, t.segments, m, j);
    }
    forall j | j in t.calls ensures CallFacts(cfg, t, j) {
      assert CallFacts(cfg, s, j);
    }
    forall r | r in t.readers ensures ReaderFacts(t.segments, t.cur, t.readers[r]) {
      assert CallFacts(cfg, s, k);
      ReaderSurvivesPut(s.segments, s.cur, n, k, s.readers[r]);
    }
  }

  lemma ReaderSurvivesPut(segments: Segments, cur: nat, n: nat, k: EventKey, rd: Reader)
    requires ReaderFacts(segments, cur, rd)
    requires forall m: nat {:trigger k in Seg(segments, m)} :: k in Seg(segments, m) ==> m == n
    ensures ReaderFacts(segments[n := Seg(segments, n) + {k}], cur, rd)
  {
    var grown := segments[n := Seg(segments, n) + {k}];
    forall j | j in rd.got ensures StoredWithin(grown, rd.next, rd.top + 1, j) {
      var m: nat :| rd.next <= m < rd.top + 1 && j in Seg(segments, m);
      assert j in Seg(grown, m);
    }
    forall j | j in rd.seen ensures StoredWithin(grown, 0, rd.top + 1, j) {
      var m: nat :| m < rd.top + 1 && j in Seg(segments, m);
      assert j in Seg(grown, m);
    }
    forall j | j in rd.seen && StoredWithin(grown, rd.next, rd.top + 1, j) ensures j in rd.got {
      // What the reader saw was stored before the put, so the put did not add it.
      var o: nat :| o < rd.top + 1 && j in Seg(segments, o);
      var m: nat :| rd.next <= m < rd.top + 1 && j in Seg(grown, m);
      assert j in Seg(segments, m);
    }
  }

  lemma ReaderReads(segments: Segments, cur: nat, rd: Reader)
    requires ReaderFacts(segments, cur, rd) && Unique(segments) && rd.next > 0
    ensures ReaderFacts(segments, cur, rd.(next := rd.next - 1, got := rd.got + multiset(Seg(segments, rd.next - 1))))
  {
    var n := rd.next - 1;
    var sd := rd.(next := n, got := rd.got + multiset(Seg(segments, n)));
    forall k | k in Seg(segments, n) ensures rd.got[k] == 0 {
      assert !StoredWithin(segments, rd.next, rd.top + 1, k);
    }
    forall k | k in sd.got ensures StoredWithin(segments, n, rd.top + 1, k) {
      if k in rd.got {
        var m: nat :| rd.next <= m < rd.top + 1 && k in Seg(segments, m);
      }
    }
    forall k | k in rd.seen && StoredWithin(segments, n, rd.top + 1, k) ensures k in sd.got {
      var m: nat :| n <= m < rd.top + 1 && k in Seg(segments, m);
      assert m != n ==> StoredWithin(segments, rd.next, rd.top + 1, k);
    }
  }

  lemma InvUnique(cfg: Config, s: State)
    requires Inv(cfg, s)
    ensures Unique(s.segments)
  {
    forall k, m: nat, n: nat | k in Seg(s.segments, m) && k in Seg(s.segments, n) ensures m == n {
      assert CallFacts(cfg, s, k);
    }
  }

  /** Steps that touch neither calls nor stored data. */
  lemma FrameCallsAndStore(cfg: Config, s: State, t: State)
    requires Inv(cfg, s)
    requires t.segments == s.segments && t.cur == s.cur && t.latePuts == s.latePuts
    requires t.lateBumps == s.lateBumps && t.calls == s.calls
    requires forall p :: p in t.cache ==> t.cache[p] <= t.cur
    ensures StoreFacts(cfg, t) && forall k :: k in t.calls ==> CallFacts(cfg, t, k)
  {
    forall n: nat | RefusedBySome(cfg, s.segments, s.calls.Keys, n) ensures RefusedBySome(cfg, t.segments, t.calls.Keys, n) {
      var j :| j in s.calls && Refuses(cfg, s.segments, n, j);
      assert j in t.calls && Refuses(cfg, t.segments, n, j);
    }
    forall k | k in t.calls ensures CallFacts(cfg, t, k) {
      assert CallFacts(cfg, s, k);
    }
  }

  // ---- every action keeps the invariant --------------------------------------------------

  lemma InitialKeeps(cfg: Config, s: State)
    requires Initial(s)
    ensures Inv(cfg, s)
  {
  }

  lemma PutOkKeeps(cfg: Config, s: State, k: EventKey)
    requires Inv(cfg, s) && Enabled(cfg, s, PutOk(k))
    ensures Inv(cfg, InPhase(PutInto(s, s.calls[k].at, k), k, Stored))
  {
    hide Inv;
    var n := s.calls[k].at;
    var u := PutInto(s, n, k);
    PutStep(cfg, s, n, k);
    Knows(cfg, u, k);
    PhaseKeeps(cfg, u, k, Stored);
  }

  lemma LandPutKeeps(cfg: Config, s: State, k: EventKey, n: nat)
    requires Inv(cfg, s) && (k, n) in s.latePuts && Fits(cfg, Seg(s.segments, n), k)
    ensures Inv(cfg, PutInto(s, n, k))
  {
    assert k in s.calls;
    hide Inv;
    Knows(cfg, s, k);
    PutStep(cfg, s, n, k);
  }

  /** `cur` moves past a segment that refused someone. */
  lemma CurMoves(cfg: Config, s: State)
    requires Inv(cfg, s) && RefusedBySome(cfg, s.segments, s.calls.Keys, s.cur)
    ensures Inv(cfg, s.(cur := s.cur + 1))
  {
    hide RefusedBySome, Refuses, Seg, Load, StoredWithin;
    var t := s.(cur := s.cur + 1);
    forall k | k in t.calls ensures CallFacts(cfg, t, k) {
      assert CallFacts(cfg, s, k);
    }
    forall r | r in t.readers ensures ReaderFacts(t.segments, t.cur, t.readers[r]) {
      assert ReaderFacts(s.segments, s.cur, s.readers[r]);
    }
  }

  lemma BumpOkKeeps(cfg: Config, s: State, k: EventKey)
    requires Inv(cfg, s) && k in s.calls && s.calls[k].phase.Bumping? && s.cur == s.calls[k].at
    ensures Inv(cfg, InPhase(s.(cur := s.cur + 1), k, Rolled(s.cur + 1)))
  {
    hide Inv;
    Knows(cfg, s, k);
    CurMoves(cfg, s);
    var t := s.(cur := s.cur + 1);
    PhaseKeeps(cfg, t, k, Rolled(s.cur + 1));
  }

  /** A call that put nothing yet: its event is nowhere, not even on its way. */
  lemma StartKeeps(cfg: Config, s: State, k: EventKey, c: Call)
    requires Inv(cfg, s) && k !in s.calls && IndexFacts(s.cur, c)
    requires !WasRefused(c.phase) && !c.phase.Stored? && !c.phase.Done? && !c.phase.Failed?
    ensures Inv(cfg, s.(calls := s.calls[k := c]))
  {
    var t := s.(calls := s.calls[k := c]);
    assert t.calls[k] == c;
    CallStep(cfg, s, t, k);
  }

  /** The continuation after an awaited index or put: the process caches an index, the call moves on. */
  lemma MoveOn(cfg: Config, s: State, k: EventKey, index: nat, c: Call)
    requires Inv(cfg, s) && k in s.calls && index <= s.cur
    requires Placement(cfg, s.segments, s.latePuts, k, c) && PhaseFacts(cfg, s.segments, k, c) && IndexFacts(s.cur, c)
    ensures Inv(cfg, s.(cache := s.cache[s.calls[k].process := index], calls := s.calls[k := c]))
  {
    var t := s.(cache := s.cache[s.calls[k].process := index], calls := s.calls[k := c]);
    assert t.calls[k] == c;
    CallStep(cfg, s, t, k);
  }

  lemma StoredResumes(cfg: Config, s: State, k: EventKey)
    requires Inv(cfg, s) && k in s.calls && s.calls[k].phase.Stored?
    ensures Inv(cfg, ResumeStep(s, k))
  {
    hide Inv;
    var c := s.calls[k];
    Knows(cfg, s, k);
    MoveOn(cfg, s, k, c.at, c.(phase := Done));
  }

  lemma SeededResumes(cfg: Config, s: State, k: EventKey)
    requires Inv(cfg, s) && k in s.calls && s.calls[k].phase.Seeded?
    ensures Inv(cfg, ResumeStep(s, k))
  {
    hide Inv;
    var c := s.calls[k];
    Knows(cfg, s, k);
    MoveOn(cfg, s, k, c.phase.index, c.(at := c.phase.index, phase := Putting(0)));
  }

  lemma RolledResumes(cfg: Config, s: State, k: EventKey)
    requires Inv(cfg, s) && k in s.calls && s.calls[k].phase.Rolled?
    ensures Inv(cfg, ResumeStep(s, k))
  {
    hide Inv;
    var c := s.calls[k];
    var m := c.phase.index;
    Knows(cfg, s, k);
    var next := if c.attempt >= MAX_ATTEMPTS then c.(phase := Failed(NotConverged))
                else c.(at := m, attempt := c.attempt + 1, phase := Putting(0));
    MoveOn(cfg, s, k, m, next);
  }

  /** A call moves to a phase for which it already knows everything. */
  lemma PhaseKeeps(cfg: Config, s: State, k: EventKey, phase: Phase)
    requires Inv(cfg, s) && k in s.calls && CallFacts(cfg, InPhase(s, k, phase), k)
    ensures Inv(cfg, InPhase(s, k, phase))
  {
    CallStep(cfg, s, InPhase(s, k, phase), k);
  }

  /** Reads of `cur`, and increments that were filtered out because `cur` had moved. */
  lemma ReadIndexKeeps(cfg: Config, s: State, a: Action)
    requires Inv(cfg, s) && Enabled(cfg, s, a) && (a.ReadCur? || a.BumpFiltered? || a.RereadCur?)
    ensures Inv(cfg, Step(cfg, s, a))
  {
    hide Inv;
    Knows(cfg, s, a.k);
    PhaseKeeps(cfg, s, a.k, if a.ReadCur? then Seeded(s.cur) else if a.BumpFiltered? then Filtered else Rolled(s.cur));
  }

  lemma RefusedPutKeeps(cfg: Config, s: State, k: EventKey)
    requires Inv(cfg, s) && Enabled(cfg, s, PutRefused(k))
    ensures Inv(cfg, Step(cfg, s, PutRefused(k)))
  {
    hide Inv;
    Knows(cfg, s, k);
    if k in Seg(s.segments, s.calls[k].at) {
      OwnKeyFits(cfg, s, s.calls[k].at, k);
    }
    PhaseKeeps(cfg, s, k, if s.calls[k].attempt == 0 then Bumping(0) else Sizing);
  }

  lemma ReadSizeKeeps(cfg: Config, s: State, k: EventKey)
    requires Inv(cfg, s) && Enabled(cfg, s, ReadSize(k))
    ensures Inv(cfg, Step(cfg, s, ReadSize(k)))
  {
    hide Inv;
    Knows(cfg, s, k);
    LoadOfOne(cfg, k);
    assert {} + {k} == {k};
    PhaseKeeps(cfg, s, k, if Seg(s.segments, s.calls[k].at) == {} then Failed(Oversized) else Bumping(0));
  }

  lemma LoadOfOne(cfg: Config, k: EventKey)
    ensures Load(cfg, {k}) == cfg.cost(k)
  {
    LoadSplit(cfg, {k}, k);
    assert {k} - {k} == {};
  }

  /** A put whose outcome is unknown joins the late ones. */
  lemma LatePutKeeps(cfg: Config, s: State, k: EventKey)
    requires Inv(cfg, s) && k in s.calls && s.calls[k].phase.Putting?
    ensures Inv(cfg, s.(latePuts := s.latePuts + {(k, s.calls[k].at)}))
  {
    var t := s.(latePuts := s.latePuts + {(k, s.calls[k].at)});
    assert CallFacts(cfg, s, k);
    assert CallFacts(cfg, t, k);
    CallStep(cfg, s, t, k);
  }

  lemma LateBumpKeeps(cfg: Config, s: State, k: EventKey)
    requires Inv(cfg, s) && k in s.calls && s.calls[k].phase.Bumping?
    ensures Inv(cfg, s.(lateBumps := s.lateBumps + {s.calls[k].at}))
  {
    var t := s.(lateBumps := s.lateBumps + {s.calls[k].at});
    assert CallFacts(cfg, s, k);
    assert CallFacts(cfg, t, k);
    CallStep(cfg, s, t, k);
  }

  /** Retries and errors: the call tries the same write again or fails. */
  lemma GiveUpOrRetryKeeps(cfg: Config, s: State, k: EventKey, phase: Phase)
    requires Inv(cfg, s) && k in s.calls && Unfinished(s.calls[k].phase)
    requires phase == Failed(Backpressure) || phase == Failed(OtherError)
             || (phase.Putting? && s.calls[k].phase.Putting?) || (phase.Bumping? && s.calls[k].phase.Bumping?)
    ensures Inv(cfg, InPhase(s, k, phase))
  {
    hide Inv;
    Knows(cfg, s, k);
    PhaseKeeps(cfg, s, k, phase);
  }

  lemma AbortKeeps(cfg: Config, s: State, k: EventKey)
    requires Inv(cfg, s) && Enabled(cfg, s, Abort(k))
    ensures Inv(cfg, Step(cfg, s, Abort(k)))
  {
    hide Inv;
    var c := s.calls[k];
    var late := if c.phase.Putting? then s.(latePuts := s.latePuts + {(k, c.at)})
                else if c.phase.Bumping? then s.(lateBumps := s.lateBumps + {c.at}) else s;
    if c.phase.Putting? {
      LatePutKeeps(cfg, s, k);
    } else if c.phase.Bumping? {
      LateBumpKeeps(cfg, s, k);
    }
    GiveUpOrRetryKeeps(cfg, late, k, Failed(OtherError));
    assert Step(cfg, s, Abort(k)) == InPhase(late, k, Failed(OtherError));
  }

  /** Another try of the same write, or the end of the retries. */
  lemma RetriedKeeps(cfg: Config, s: State, k: EventKey, again: Phase)
    requires Inv(cfg, s) && k in s.calls
    requires (again.Putting? && s.calls[k].phase.Putting?) || (again.Bumping? && s.calls[k].phase.Bumping?)
    ensures Inv(cfg, Retried(s, k, s.calls[k].phase.tries, again))
  {
    GiveUpOrRetryKeeps(cfg, s, k, if s.calls[k].phase.tries >= MAX_RETRIES then Failed(Backpressure) else again);
  }

  lemma PutTimedOutKeeps(cfg: Config, s: State, k: EventKey)
    requires Inv(cfg, s) && Enabled(cfg, s, PutTimedOut(k))
    ensures Inv(cfg, Step(cfg, s, PutTimedOut(k)))
  {
    hide Inv;
    LatePutKeeps(cfg, s, k);
    RetriedKeeps(cfg, s.(latePuts := s.latePuts + {(k, s.calls[k].at)}), k, Putting(s.calls[k].phase.tries + 1));
  }

  lemma BumpTimedOutKeeps(cfg: Config, s: State, k: EventKey)
    requires Inv(cfg, s) && Enabled(cfg, s, BumpTimedOut(k))
    ensures Inv(cfg, Step(cfg, s, BumpTimedOut(k)))
  {
    hide Inv;
    LateBumpKeeps(cfg, s, k);
    RetriedKeeps(cfg, s.(lateBumps := s.lateBumps + {s.calls[k].at}), k, Bumping(s.calls[k].phase.tries + 1));
  }

  /** A reader is added or moves on. */
  lemma ReaderKeeps(cfg: Config, s: State, r: ReaderId, rd: Reader)
    requires Inv(cfg, s) && ReaderFacts(s.segments, s.cur, rd)
    ensures Inv(cfg, s.(readers := s.readers[r := rd]))
  {
    FrameCallsAndStore(cfg, s, s.(readers := s.readers[r := rd]));
  }

  lemma OpenReadKeeps(cfg: Config, s: State, r: ReaderId, p: Process)
    requires Inv(cfg, s)
    ensures Inv(cfg, s.(readers := s.readers[r := Reader(p, s.cur, s.cur + 1, AllStored(s), multiset{})]))
  {
    var rd := Reader(p, s.cur, s.cur + 1, AllStored(s), multiset{});
    OpenedReader(cfg, s, rd);
    hide Inv;
    ReaderKeeps(cfg, s, r, rd);
  }

  lemma PublishReadKeeps(cfg: Config, s: State, r: ReaderId)
    requires Inv(cfg, s) && r in s.readers
    ensures Inv(cfg, s.(cache := s.cache[s.readers[r].process := s.readers[r].top]))
  {
    assert ReaderFacts(s.segments, s.cur, s.readers[r]);
    FrameCallsAndStore(cfg, s, s.(cache := s.cache[s.readers[r].process := s.readers[r].top]));
  }

  lemma ReadSegmentKeeps(cfg: Config, s: State, r: ReaderId)
    requires Inv(cfg, s) && r in s.readers && s.readers[r].next > 0
    ensures var rd := s.readers[r];
            var next := rd.(next := rd.next - 1, got := rd.got + multiset(Seg(s.segments, rd.next - 1)));
            Inv(cfg, s.(readers := s.readers[r := next]))
  {
    var rd := s.readers[r];
    assert ReaderFacts(s.segments, s.cur, rd);
    hide Inv;
    InvUnique(cfg, s);
    ReaderReads(s.segments, s.cur, rd);
    ReaderKeeps(cfg, s, r, rd.(next := rd.next - 1, got := rd.got + multiset(Seg(s.segments, rd.next - 1))));
  }

  lemma OpenedReader(cfg: Config, s: State, rd: Reader)
    requires StoreFacts(cfg, s)
    requires rd.top == s.cur && rd.next == s.cur + 1 && rd.seen == AllStored(s) && rd.got == multiset{}
    ensures ReaderFacts(s.segments, s.cur, rd)
  {
    forall k | k in rd.seen ensures StoredWithin(s.segments, 0, rd.top + 1, k) {
      var n :| n in s.segments && k in s.segments[n];
      assert k in Seg(s.segments, n);
    }
  }

  lemma StepKeeps(cfg: Config, s: State, a: Action)
    requires Inv(cfg, s) && Enabled(cfg, s, a)
    ensures Inv(cfg, Step(cfg, s, a))
  {
    hide Inv;
    match a
    case Start(k, p, _) =>
      CachedIndexIsOld(cfg, s, p);
      StartKeeps(cfg, s, k, Step(cfg, s, a).calls[k]);
    case ReadCur(_) => ReadIndexKeeps(cfg, s, a);
    case Resume(k) =>
      if s.calls[k].phase.Stored? {
        StoredResumes(cfg, s, k);
      } else if s.calls[k].phase.Seeded? {
        SeededResumes(cfg, s, k);
      } else {
        RolledResumes(cfg, s, k);
      }
    case PutOk(k) => PutOkKeeps(cfg, s, k);
    case PutRefused(k) => RefusedPutKeeps(cfg, s, k);
    case PutPushedBack(k) => RetriedKeeps(cfg, s, k, Putting(s.calls[k].phase.tries + 1));
    case PutTimedOut(k) => PutTimedOutKeeps(cfg, s, k);
    case ReadSize(k) => ReadSizeKeeps(cfg, s, k);
    case BumpOk(k) => BumpOkKeeps(cfg, s, k);
    case BumpFiltered(_) => ReadIndexKeeps(cfg, s, a);
    case BumpPushedBack(k) => RetriedKeeps(cfg, s, k, Bumping(s.calls[k].phase.tries + 1));
    case BumpTimedOut(k) => BumpTimedOutKeeps(cfg, s, k);
    case RereadCur(_) => ReadIndexKeeps(cfg, s, a);
    case Abort(k) => AbortKeeps(cfg, s, k);
    case LandPut(k, n) =>
      if Fits(cfg, Seg(s.segments, n), k) {
        LandPutKeeps(cfg, s, k, n);
      }
    case LandBump(n) =>
      LateBumpWasRefused(cfg, s, n);
      if s.cur == n {
        CurMoves(cfg, s);
      }
    case OpenRead(r, p) => OpenReadKeeps(cfg, s, r, p);
    case PublishRead(r) => PublishReadKeeps(cfg, s, r);
    case ReadSegment(r) => ReadSegmentKeeps(cfg, s, r);
  }

  lemma {:induction false} InvAlways(cfg: Config, run: seq<State>, acts: seq<Action>, i: nat)
    requires IsRun(cfg, run, acts) && i < |run|
    ensures Inv(cfg, run[i])
  {
    if i == 0 {
      InitialKeeps(cfg, run[0]);
    } else {
      InvAlways(cfg, run, acts, i - 1);
      StepKeeps(cfg, run[i - 1], acts[i - 1]);
    }
  }

  lemma {:induction false} RunGrows(cfg: Config, run: seq<State>, acts: seq<Action>, i: nat, j: nat)
    requires IsRun(cfg, run, acts) && i <= j < |run|
    ensures Grows(run[i], run[j])
  {
    hide Step, Enabled;
    if i < j {
      RunGrows(cfg, run, acts, i, j - 1);
      StepGrows(cfg, run[j - 1], acts[j - 1]);
    }
  }
}
