/**
 * The append protocol of one session's segment log, as a step relation.
 *
 * Every action is one atomic record operation of the store, or one continuation of a
 * coroutine. Any number of append calls in any number of processes interleave; a write
 * that timed out may still land at any later moment, or never.
 */
module LogProtocol {

  type EventKey = string
  type Process = nat
  type ReaderId = nat
  type Segments = map<nat, set<EventKey>>
  type pos = n: int | 0 < n witness 1

  /** The record size limit and what each stored event costs. */
  datatype Config = Config(cap: nat, cost: EventKey -> pos)

  const MAX_ATTEMPTS: nat := 64
  const MAX_RETRIES: nat := 10

  datatype Reason = Oversized | NotConverged | Backpressure | OtherError

  /** Where an append call is; `tries` counts the retries of the current write. */
  datatype Phase =
    | Begin
    | Seeded(index: nat)
    | Putting(tries: nat)
    | Sizing
    | Bumping(tries: nat)
    | Filtered
    | Rolled(index: nat)
    | Stored
    | Done
    | Failed(reason: Reason)

  /**
   * One append call: the segment it last targeted, how many iterations of the placing loop
   * it entered (a batch write comes before the first), and `cur` when the call began.
   */
  datatype Call = Call(process: Process, at: nat, attempt: nat, base: nat, phase: Phase)

  /** A full read: segments next..top are in `got`; `seen` is what was stored when it read `cur`. */
  datatype Reader = Reader(process: Process, top: nat, next: nat, seen: set<EventKey>, got: multiset<EventKey>)

  datatype State = State(
    cur: nat,
    segments: Segments,
    latePuts: set<(EventKey, nat)>,
    lateBumps: set<nat>,
    cache: map<Process, nat>,
    calls: map<EventKey, Call>,
    readers: map<ReaderId, Reader>)

  datatype Action =
    | Start(k: EventKey, p: Process, batch: bool)
    | ReadCur(k: EventKey)
    | Resume(k: EventKey)
    | PutOk(k: EventKey)
    | PutRefused(k: EventKey)
    | PutPushedBack(k: EventKey)
    | PutTimedOut(k: EventKey)
    | ReadSize(k: EventKey)
    | BumpOk(k: EventKey)
    | BumpFiltered(k: EventKey)
    | BumpPushedBack(k: EventKey)
    | BumpTimedOut(k: EventKey)
    | RereadCur(k: EventKey)
    | Abort(k: EventKey)
    | LandPut(k: EventKey, n: nat)
    | LandBump(n: nat)
    | OpenRead(r: ReaderId, p: Process)
    | PublishRead(r: ReaderId)
    | ReadSegment(r: ReaderId)

  // ---- the store -----------------------------------------------------------------

  /** A missing segment record reads as empty. */
  function Seg(segments: Segments, n: nat): set<EventKey> {
    if n in segments then segments[n] else {}
  }

  ghost function Pick(x: set<EventKey>): (k: EventKey)
    requires x != {}
    ensures k in x
  {
    var k :| k in x; k
  }

  /** Bytes of a segment: the cost of each distinct key. */
  ghost function Load(cfg: Config, x: set<EventKey>): nat {
    if x == {} then 0 else var k := Pick(x); cfg.cost(k) + Load(cfg, x - {k})
  }

  /** A put is accepted iff the record it leaves is within the limit. */
  ghost predicate Fits(cfg: Config, x: set<EventKey>, k: EventKey) {
    Load(cfg, x + {k}) <= cfg.cap
  }

  lemma {:induction false} LoadSplit(cfg: Config, x: set<EventKey>, k: EventKey)
    requires k in x
    ensures Load(cfg, x) == cfg.cost(k) + Load(cfg, x - {k})
  {
    var p := Pick(x);
    if p != k {
      LoadSplit(cfg, x - {p}, k);
      LoadSplit(cfg, x - {k}, p);
      assert x - {p} - {k} == x - {k} - {p};
    }
  }

  lemma {:induction false} LoadMonotone(cfg: Config, x: set<EventKey>, y: set<EventKey>)
    requires x <= y
    ensures Load(cfg, x) <= Load(cfg, y)
  {
    if x != {} {
      var k := Pick(x);
      LoadSplit(cfg, y, k);
      LoadMonotone(cfg, x - {k}, y - {k});
    }
  }

  // ---- steps -----------------------------------------------------------------------

  function InPhase(s: State, k: EventKey, phase: Phase): State
    requires k in s.calls
  {
    s.(calls := s.calls[k := s.calls[k].(phase := phase)])
  }

  function PutInto(s: State, n: nat, k: EventKey): State {
    s.(segments := s.segments[n := Seg(s.segments, n) + {k}])
  }

  function Retried(s: State, k: EventKey, tries: nat, again: Phase): State
    requires k in s.calls
  {
    InPhase(s, k, if tries >= MAX_RETRIES then Failed(Backpressure) else again)
  }

  predicate Unfinished(phase: Phase) {
    !phase.Stored? && !phase.Done? && !phase.Failed?
  }

  predicate Initial(s: State) {
    && s.cur == 0 && s.segments == map[] && s.latePuts == {} && s.lateBumps == {}
    && s.calls == map[] && s.readers == map[] && forall p :: p in s.cache ==> s.cache[p] == 0
  }

  ghost predicate Enabled(cfg: Config, s: State, a: Action) {
    match a
    // One append call per event key.
    case Start(k, _, _) => k !in s.calls
    case ReadCur(k) => k in s.calls && s.calls[k].phase.Begin?
    case Resume(k) => k in s.calls && var ph := s.calls[k].phase; ph.Seeded? || ph.Rolled? || ph.Stored?
    case PutOk(k) => k in s.calls && s.calls[k].phase.Putting? && Fits(cfg, Seg(s.segments, s.calls[k].at), k)
    case PutRefused(k) => k in s.calls && s.calls[k].phase.Putting? && !Fits(cfg, Seg(s.segments, s.calls[k].at), k)
    case PutPushedBack(k) => k in s.calls && s.calls[k].phase.Putting?
    case PutTimedOut(k) => k in s.calls && s.calls[k].phase.Putting?
    case ReadSize(k) => k in s.calls && s.calls[k].phase.Sizing?
    case BumpOk(k) => k in s.calls && s.calls[k].phase.Bumping? && s.cur == s.calls[k].at
    case BumpFiltered(k) => k in s.calls && s.calls[k].phase.Bumping? && s.cur != s.calls[k].at
    case BumpPushedBack(k) => k in s.calls && s.calls[k].phase.Bumping?
    case BumpTimedOut(k) => k in s.calls && s.calls[k].phase.Bumping?
    case RereadCur(k) => k in s.calls && s.calls[k].phase.Filtered?
    case Abort(k) => k in s.calls && Unfinished(s.calls[k].phase)
    case LandPut(k, n) => (k, n) in s.latePuts
    case LandBump(n) => n in s.lateBumps
    case OpenRead(r, _) => r !in s.readers
    case PublishRead(r) => r in s.readers
    case ReadSegment(r) => r in s.readers && s.readers[r].next > 0
  }

  /** The effect of an enabled action. */
  ghost function Step(cfg: Config, s: State, a: Action): State
    requires Enabled(cfg, s, a)
  {
    match a
    case Start(k, p, batch) =>
      // A cached index is used unread; a missing one is read from the session record first.
      var attempt := if batch then 0 else 1;
      if p in s.cache then
        s.(calls := s.calls[k := Call(p, s.cache[p], attempt, s.cur, Putting(0))])
      else
        s.(calls := s.calls[k := Call(p, 0, attempt, s.cur, Begin)])
    case ReadCur(k) => InPhase(s, k, Seeded(s.cur))
    case Resume(k) => ResumeStep(s, k)
    case PutOk(k) => InPhase(PutInto(s, s.calls[k].at, k), k, Stored)
    case PutRefused(k) =>
      // The batch path rolls over at once; the placing loop first asks whether the segment is empty.
      InPhase(s, k, if s.calls[k].attempt == 0 then Bumping(0) else Sizing)
    case PutPushedBack(k) =>
      var tries := s.calls[k].phase.tries; Retried(s, k, tries, Putting(tries + 1))
    case PutTimedOut(k) =>
      var tries := s.calls[k].phase.tries;
      Retried(s.(latePuts := s.latePuts + {(k, s.calls[k].at)}), k, tries, Putting(tries + 1))
    case ReadSize(k) =>
      InPhase(s, k, if Seg(s.segments, s.calls[k].at) == {} then Failed(Oversized) else Bumping(0))
    case BumpOk(k) => InPhase(s.(cur := s.cur + 1), k, Rolled(s.cur + 1))
    case BumpFiltered(k) => InPhase(s, k, Filtered)
    case BumpPushedBack(k) =>
      var tries := s.calls[k].phase.tries; Retried(s, k, tries, Bumping(tries + 1))
    case BumpTimedOut(k) =>
      var tries := s.calls[k].phase.tries;
      Retried(s.(lateBumps := s.lateBumps + {s.calls[k].at}), k, tries, Bumping(tries + 1))
    case RereadCur(k) => InPhase(s, k, Rolled(s.cur))
    case Abort(k) =>
      // Any other error; the write it interrupted may still land.
      var c := s.calls[k];
      var t := InPhase(s, k, Failed(OtherError));
      if c.phase.Putting? then t.(latePuts := t.latePuts + {(k, c.at)})
      else if c.phase.Bumping? then t.(lateBumps := t.lateBumps + {c.at})
      else t
    case LandPut(k, n) => if Fits(cfg, Seg(s.segments, n), k) then PutInto(s, n, k) else s
    case LandBump(n) => if s.cur == n then s.(cur := n + 1) else s
    case OpenRead(r, p) =>
      s.(readers := s.readers[r := Reader(p, s.cur, s.cur + 1, AllStored(s), multiset{})])
    case PublishRead(r) => s.(cache := s.cache[s.readers[r].process := s.readers[r].top])
    case ReadSegment(r) =>
      var rd := s.readers[r];
      s.(readers := s.readers[r := rd.(next := rd.next - 1, got := rd.got + multiset(Seg(s.segments, rd.next - 1)))])
  }

  /** What a call does once an awaited index, or its put, came back. */
  function ResumeStep(s: State, k: EventKey): State
    requires k in s.calls && var ph := s.calls[k].phase; ph.Seeded? || ph.Rolled? || ph.Stored?
  {
    var c := s.calls[k];
    match c.phase
    case Stored => InPhase(s.(cache := s.cache[c.process := c.at]), k, Done)
    case Seeded(m) =>
      s.(cache := s.cache[c.process := m], calls := s.calls[k := c.(at := m, phase := Putting(0))])
    case _ =>
      var m := c.phase.index;
      var next := if c.attempt >= MAX_ATTEMPTS then c.(phase := Failed(NotConverged))
                  else c.(at := m, attempt := c.attempt + 1, phase := Putting(0));
      s.(cache := s.cache[c.process := m], calls := s.calls[k := next])
  }

  ghost function AllStored(s: State): set<EventKey> {
    set n, k | n in s.segments && k in s.segments[n] :: k
  }

  // ---- runs -------------------------------------------------------------------------

  /** A run of the protocol from the moment the session was created. */
  ghost predicate IsRun(cfg: Config, run: seq<State>, acts: seq<Action>) {
    && |run| == |acts| + 1
    && Initial(run[0])
    && forall i :: 0 <= i < |acts| ==> Enabled(cfg, run[i], acts[i]) && run[i + 1] == Step(cfg, run[i], acts[i])
  }
}
