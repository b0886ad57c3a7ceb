/**
 * Versions of one artifact under interleaved saves, crashes and deletes. A save is an atomic
 * read-and-increment of the head counter and then a create-only put of one row; a delete removes
 * the rows one by one and the head last, while no save is under way.
 */
module ArtifactProtocol {
  import opened Options

  type CallId = nat

  datatype Phase =
    | Allocated   // the version is taken, the put not yet sent
    | Lost        // the caller gave up; its put may still land
    | Gone        // the caller gave up, and nothing will land any more
    | Saved       // returned to the caller
    | Refused     // the create-only put found a row

  /** One save: its version and the incarnation of the head that gave it. */
  datatype Save = Save(phase: Phase, version: nat, epoch: nat)

  datatype State = State(
    head: Option<nat>,
    rows: map<nat, CallId>,        // version to the save that wrote it
    saves: map<CallId, Save>,
    deleting: Option<seq<nat>>,    // versions a running delete has still to remove
    epoch: nat,                    // heads deleted so far
    removed: set<nat>)             // versions removed since the head was created

  const INIT := State(None, map[], map[], None, 0, {})

  datatype Action =
    | Allocate(call: CallId)
    | Put(call: CallId)
    | Abandon(call: CallId)
    | Land(call: CallId)
    | NeverLands(call: CallId)
    | BeginDelete(versions: seq<nat>)
    | DeleteRow
    | DeleteHead
    | CrashDelete

  function Next(s: State): nat {
    if s.head.Some? then s.head.value else 0
  }

  predicate InPhase(s: State, c: CallId, p: Phase) {
    c in s.saves && s.saves[c].phase == p
  }

  /** No save is running and no abandoned put can land any more. */
  predicate Quiet(s: State) {
    forall c :: c in s.saves ==> !s.saves[c].phase.Allocated? && !s.saves[c].phase.Lost?
  }

  ghost predicate Enabled(s: State, a: Action) {
    match a
    case Allocate(c) => c !in s.saves && s.deleting.None?
    case Put(c) => InPhase(s, c, Allocated)
    case Abandon(c) => InPhase(s, c, Allocated)
    case Land(c) => InPhase(s, c, Lost)
    case NeverLands(c) => InPhase(s, c, Lost)
    case BeginDelete(versions) => Quiet(s) && s.deleting.None? && forall v :: v in versions <==> v in s.rows
    case DeleteRow => s.deleting.Some? && s.deleting.value != []
    case DeleteHead => s.deleting == Some([])
    case CrashDelete => s.deleting.Some?
  }

  function WithPhase(s: State, c: CallId, p: Phase): State
    requires c in s.saves
  {
    s.(saves := s.saves[c := s.saves[c].(phase := p)])
  }

  /** The create-only put: refused, with no effect, when the row exists. */
  function Create(s: State, c: CallId, done: Phase, refused: Phase): State
    requires c in s.saves
  {
    var v := s.saves[c].version;
    if v in s.rows then WithPhase(s, c, refused) else WithPhase(s.(rows := s.rows[v := c]), c, done)
  }

  function Step(s: State, a: Action): State
    requires Enabled(s, a)
  {
    match a
    case Allocate(c) => s.(head := Some(Next(s) + 1), saves := s.saves[c := Save(Allocated, Next(s), s.epoch)])
    case Put(c) => Create(s, c, Saved, Refused)
    case Abandon(c) => WithPhase(s, c, Lost)
    case Land(c) => Create(s, c, Gone, Gone)
    case NeverLands(c) => WithPhase(s, c, Gone)
    case BeginDelete(versions) => s.(deleting := Some(versions))
    case DeleteRow =>
      var v := s.deleting.value[0];
      s.(rows := s.rows - {v}, removed := s.removed + {v}, deleting := Some(s.deleting.value[1..]))
    case DeleteHead => s.(head := None, deleting := None, epoch := s.epoch + 1, removed := {})
    case CrashDelete => s.(deleting := None)
  }

  ghost predicate IsRun(run: seq<State>, actions: seq<Action>) {
    && |run| == |actions| + 1
    && forall i :: 0 <= i < |actions| ==> Enabled(run[i], actions[i]) && run[i + 1] == Step(run[i], actions[i])
  }

  // ---- the invariant -------------------------------------------------------------------------------

  predicate StoredBelowHead(head: Option<nat>, rows: map<nat, CallId>) {
    forall v :: v in rows ==> head.Some? && v < head.value
  }

  /** A save of the present head. */
  predicate Present(s: State, c: CallId) {
    c in s.saves && s.saves[c].epoch == s.epoch
  }

  predicate VersionsDistinct(saves: map<CallId, Save>) {
    forall c, d :: c in saves && d in saves && c != d && saves[c].epoch == saves[d].epoch ==> saves[c].version != saves[d].version
  }

  predicate SavesKnown(s: State) {
    forall c :: c in s.saves ==>
      && s.saves[c].epoch <= s.epoch
      && (Present(s, c) ==> s.head.Some? && s.saves[c].version < s.head.value)
      && !s.saves[c].phase.Refused?
      && ((s.saves[c].phase.Allocated? || s.saves[c].phase.Lost?) ==> Present(s, c) && s.deleting.None? && s.saves[c].version !in s.rows)
  }

  predicate RowsKnown(s: State) {
    forall v :: v in s.rows ==> Present(s, s.rows[v]) && s.saves[s.rows[v]].version == v
  }

  /** A returned version is stored under its save until a delete removes it. */
  ghost predicate SavedStored(s: State) {
    forall c :: Present(s, c) && s.saves[c].phase.Saved? ==>
      var v := s.saves[c].version; (v in s.rows && s.rows[v] == c) || v in s.removed
  }

  predicate DeleteCovers(s: State) {
    s.deleting.Some? ==> forall v :: v in s.rows ==> v in s.deleting.value
  }

  ghost predicate Inv(s: State) {
    StoredBelowHead(s.head, s.rows) && VersionsDistinct(s.saves) && SavesKnown(s) && RowsKnown(s) && SavedStored(s) && DeleteCovers(s)
  }

  lemma AllocateKeeps(s: State, c: CallId)
    requires Inv(s) && Enabled(s, Allocate(c))
    ensures Inv(Step(s, Allocate(c)))
  {
    var t := Step(s, Allocate(c));
    assert forall d :: d in s.saves ==> t.saves[d] == s.saves[d];
  }

  /** What a put does when its row is free. */
  ghost predicate Created(s: State, t: State, c: CallId, p: Phase)
    requires c in s.saves
  {
    && t == s.(rows := t.rows, saves := t.saves)
    && t.rows == s.rows[s.saves[c].version := c]
    && t.saves.Keys == s.saves.Keys
    && (forall d :: d in s.saves && d != c ==> t.saves[d] == s.saves[d])
    && t.saves[c] == s.saves[c].(phase := p)
  }

  lemma CreatedKeepsSaves(s: State, t: State, c: CallId, p: Phase)
    requires Inv(s) && (InPhase(s, c, Allocated) || InPhase(s, c, Lost)) && (p.Saved? || p.Gone?) && Created(s, t, c, p)
    ensures VersionsDistinct(t.saves) && SavesKnown(t)
  {
    hide SavedStored, RowsKnown, DeleteCovers;
  }

  lemma CreatedKeepsRows(s: State, t: State, c: CallId, p: Phase)
    requires Inv(s) && (InPhase(s, c, Allocated) || InPhase(s, c, Lost)) && (p.Saved? || p.Gone?) && Created(s, t, c, p)
    ensures StoredBelowHead(t.head, t.rows) && RowsKnown(t) && DeleteCovers(t)
  {
    hide SavedStored, VersionsDistinct;
  }

  lemma CreatedKeepsStored(s: State, t: State, c: CallId, p: Phase)
    requires Inv(s) && (InPhase(s, c, Allocated) || InPhase(s, c, Lost)) && (p.Saved? || p.Gone?) && Created(s, t, c, p)
    ensures SavedStored(t)
  {
    hide RowsKnown, DeleteCovers, StoredBelowHead;
  }

  /** The put of an allocated version always finds its row free. */
  lemma CreateKeeps(s: State, c: CallId, done: Phase, refused: Phase)
    requires Inv(s) && (InPhase(s, c, Allocated) || InPhase(s, c, Lost)) && (done.Saved? || done.Gone?)
    ensures Inv(Create(s, c, done, refused))
  {
    var t := Create(s, c, done, refused);
    assert Created(s, t, c, done) by { hide VersionsDistinct, SavedStored, RowsKnown, DeleteCovers, StoredBelowHead; }
    hide *;
    CreatedKeepsSaves(s, t, c, done);
    CreatedKeepsRows(s, t, c, done);
    CreatedKeepsStored(s, t, c, done);
    InvParts(t);
  }

  lemma InvParts(t: State)
    requires StoredBelowHead(t.head, t.rows) && VersionsDistinct(t.saves) && SavesKnown(t) && RowsKnown(t) && SavedStored(t) && DeleteCovers(t)
    ensures Inv(t)
  {
  }

  lemma PhaseKeeps(s: State, c: CallId, p: Phase)
    requires Inv(s) && (InPhase(s, c, Allocated) || InPhase(s, c, Lost)) && (p.Lost? || p.Gone?)
    ensures Inv(WithPhase(s, c, p))
  {
    var t := WithPhase(s, c, p);
    assert forall d :: d in s.saves && d != c ==> t.saves[d] == s.saves[d];
    assert t.saves[c] == s.saves[c].(phase := p);
  }

  lemma DeleteKeeps(s: State, a: Action)
    requires Inv(s) && Enabled(s, a) && (a.BeginDelete? || a.DeleteRow? || a.DeleteHead? || a.CrashDelete?)
    ensures Inv(Step(s, a))
  {
    if a.DeleteRow? {
      var versions := s.deleting.value;
      assert versions == [versions[0]] + versions[1..];
    }
  }

  lemma StepKeeps(s: State, a: Action)
    requires Inv(s) && Enabled(s, a)
    ensures Inv(Step(s, a))
  {
    hide Inv;
    match a
    case Allocate(c) => AllocateKeeps(s, c);
    case Put(c) => CreateKeeps(s, c, Saved, Refused);
    case Abandon(c) => PhaseKeeps(s, c, Lost);
    case Land(c) => CreateKeeps(s, c, Gone, Gone);
    case NeverLands(c) => PhaseKeeps(s, c, Gone);
    case _ => DeleteKeeps(s, a);
  }

  lemma {:induction false} InvAlways(run: seq<State>, actions: seq<Action>, n: nat)
    requires IsRun(run, actions) && run[0] == INIT && n < |run|
    ensures Inv(run[n])
  {
    hide Step;
    if n == 0 {
      InitHolds();
    } else {
      InvAlways(run, actions, n - 1);
      StepKeeps(run[n - 1], actions[n - 1]);
    }
  }

  lemma InitHolds()
    ensures Inv(INIT)
  {
  }

  // ---- what every run keeps ---------------------------------------------------------------------------

  /** The largest key, for `max(versions)`. */
  ghost predicate Largest(rows: map<nat, CallId>, v: nat) {
    v in rows && forall w :: w in rows ==> w <= v
  }

  /** At every point, between any two single-record writes, stored versions are below the head. */
  lemma VersionsStayBelowHead(run: seq<State>, actions: seq<Action>, n: nat, v: nat)
    requires IsRun(run, actions) && run[0] == INIT && n < |run| && v in run[n].rows
    ensures run[n].head.Some? && v < run[n].head.value
  {
    InvAlways(run, actions, n);
  }

  /** Saves of one head incarnation get pairwise distinct versions, and no put is ever refused. */
  lemma SavesNeverCollide(run: seq<State>, actions: seq<Action>, n: nat, c: CallId, d: CallId)
    requires IsRun(run, actions) && run[0] == INIT && n < |run| && c in run[n].saves && d in run[n].saves && c != d
    ensures run[n].saves[c].epoch == run[n].saves[d].epoch ==> run[n].saves[c].version != run[n].saves[d].version
    ensures !run[n].saves[c].phase.Refused?
  {
    InvAlways(run, actions, n);
  }

  /** A version that was returned holds its own artifact until a delete removes that very row. */
  lemma ReturnedVersionIsStored(run: seq<State>, actions: seq<Action>, n: nat, c: CallId)
    requires IsRun(run, actions) && run[0] == INIT && n < |run| && InPhase(run[n], c, Saved) && run[n].saves[c].epoch == run[n].epoch
    ensures var v := run[n].saves[c].version; v in run[n].removed || (v in run[n].rows && run[n].rows[v] == c)
  {
    InvAlways(run, actions, n);
  }

  /** The head only grows while it lives, and versions are handed out from it. */
  ghost predicate Grown(s: State, t: State, d: CallId) {
    && s.epoch <= t.epoch
    && (s.epoch == t.epoch ==> Next(s) <= Next(t))
    && (d in t.saves ==> t.saves[d].epoch > s.epoch || (t.saves[d].epoch == s.epoch && t.saves[d].version >= Next(s)))
  }

  lemma StepGrows(first: State, s: State, a: Action, d: CallId)
    requires Enabled(s, a) && Grown(first, s, d)
    ensures Grown(first, Step(s, a), d)
  {
  }

  lemma {:induction false} HeadGrows(run: seq<State>, actions: seq<Action>, i: nat, j: nat, d: CallId)
    requires IsRun(run, actions) && i <= j < |run| && d !in run[i].saves
    ensures Grown(run[i], run[j], d)
    decreases j - i
  {
    if i < j {
      hide Grown, Step;
      HeadGrows(run, actions, i, j - 1, d);
      StepGrows(run[i], run[j - 1], actions[j - 1], d);
    }
  }

  /** A save that starts after another returned gets a newer version, unless a delete came between. */
  lemma LaterSaveIsNewer(run: seq<State>, actions: seq<Action>, i: nat, j: nat, c: CallId, d: CallId)
    requires IsRun(run, actions) && run[0] == INIT && i <= j < |run|
    requires InPhase(run[i], c, Saved) && d !in run[i].saves && InPhase(run[j], d, Saved)
    ensures run[j].saves[d].epoch > run[i].saves[c].epoch || run[j].saves[d].version > run[i].saves[c].version
  {
    InvAlways(run, actions, i);
    HeadGrows(run, actions, i, j, d);
  }

  /** So the latest version is at least every version returned before, unless a delete removed it. */
  lemma LatestCoversReturned(run: seq<State>, actions: seq<Action>, n: nat, c: CallId, latest: nat)
    requires IsRun(run, actions) && run[0] == INIT && n < |run| && Largest(run[n].rows, latest)
    requires InPhase(run[n], c, Saved) && run[n].saves[c].epoch == run[n].epoch && run[n].saves[c].version !in run[n].removed
    ensures run[n].saves[c].version <= latest < Next(run[n])
    ensures run[n].saves[c].version == latest ==> run[n].rows[latest] == c
  {
    InvAlways(run, actions, n);
  }

  /** When the head is removed no row is left, so numbering restarts at 0 on an empty artifact. */
  lemma DeletedHeadLeavesNothing(run: seq<State>, actions: seq<Action>, n: nat)
    requires IsRun(run, actions) && run[0] == INIT && n < |actions| && actions[n].DeleteHead?
    ensures run[n + 1].rows == map[] && Next(run[n + 1]) == 0
  {
    InvAlways(run, actions, n);
    assert run[n + 1] == Step(run[n], actions[n]);
    assert run[n].rows.Keys == {};
  }

  // ---- progress ---------------------------------------------------------------------------------

  /** A save takes the number of versions taken before, and its put, when it comes, stores its artifact and returns. */
  lemma SaveCompletes(run: seq<State>, actions: seq<Action>, n: nat, c: CallId)
    requires IsRun(run, actions) && run[0] == INIT && n < |actions| && actions[n] == Put(c)
    ensures InPhase(run[n + 1], c, Saved) && run[n + 1].saves[c].version in run[n + 1].rows
    ensures run[n + 1].rows[run[n + 1].saves[c].version] == c
  {
    InvAlways(run, actions, n);
    assert run[n + 1] == Step(run[n], actions[n]);
  }

  /** The first save of a head gets version 0, each next one the version after. */
  lemma VersionsCountUp(s: State, c: CallId)
    requires Enabled(s, Allocate(c))
    ensures var t := Step(s, Allocate(c));
            && InPhase(t, c, Allocated) && t.saves[c].version == (if s.head.None? then 0 else s.head.value)
            && t.head == Some(t.saves[c].version + 1)
  {
  }

  /** Until a save ended it can go on: a running one can put, an abandoned one can land. */
  lemma SaveNeverStuck(s: State, c: CallId)
    requires c in s.saves
    ensures s.saves[c].phase.Allocated? ==> Enabled(s, Put(c))
    ensures s.saves[c].phase.Lost? ==> Enabled(s, Land(c))
  {
  }

  /** An abandoned put that lands stores its artifact; it just does not return. */
  lemma LandedIsStored(run: seq<State>, actions: seq<Action>, n: nat, c: CallId)
    requires IsRun(run, actions) && run[0] == INIT && n < |actions| && actions[n] == Land(c)
    ensures run[n + 1].saves[c].version in run[n + 1].rows && run[n + 1].rows[run[n + 1].saves[c].version] == c
  {
    InvAlways(run, actions, n);
    assert run[n + 1] == Step(run[n], actions[n]);
  }

  /** A delete that is not cut short removes one listed row after another, in order, and then the head. */
  function DeleteActions(versions: seq<nat>): seq<Action> {
    if versions == [] then [DeleteHead] else [DeleteRow] + DeleteActions(versions[1..])
  }

  ghost predicate Performs(s: State, actions: seq<Action>, t: State)
    decreases |actions|
  {
    if actions == [] then t == s else Enabled(s, actions[0]) && Performs(Step(s, actions[0]), actions[1..], t)
  }

  lemma {:induction false} DeleteCompletes(s: State, versions: seq<nat>, t: State)
    requires s.deleting == Some(versions) && DeleteCovers(s)
    requires t == s.(head := None, rows := map[], deleting := None, epoch := s.epoch + 1, removed := {})
    ensures Performs(s, DeleteActions(versions), t)
    decreases |versions|
  {
    if versions == [] {
      assert s.rows.Keys == {};
      assert s.rows == map[];
      assert DeleteActions(versions)[1..] == [];
    } else {
      assert versions == [versions[0]] + versions[1..];
      DeleteCompletes(Step(s, DeleteRow), versions[1..], t);
      assert DeleteActions(versions)[1..] == DeleteActions(versions[1..]);
    }
  }
}
