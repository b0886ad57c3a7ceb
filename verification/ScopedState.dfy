/** Session state in three scopes, told apart by key prefix. */
module ScopedState {

  const APP: string := "app:"
  const USER: string := "user:"
  const TEMP: string := "temp:"

  type Dict = map<string, string>

  /** A state dict split for storage. */
  datatype Parts = Parts(session: Dict, app: Dict, user: Dict)

  datatype Scope = Temporary | OfApp | OfUser | OfSession

  function ScopeOf(k: string): Scope {
    if TEMP <= k then Temporary else if APP <= k then OfApp else if USER <= k then OfUser else OfSession
  }

  /** The keys of d that start with a prefix, without it. */
  function Unprefixed(prefix: string, d: Dict): Dict {
    map j | j in (set k | k in d && prefix <= k :: k[|prefix|..]) && prefix + j in d :: d[prefix + j]
  }

  function Prefixed(prefix: string, d: Dict): Dict {
    map k | k in (set j | j in d :: prefix + j) :: d[k[|prefix|..]]
  }

  function OnlyBare(d: Dict): Dict {
    map k | k in d && ScopeOf(k).OfSession? :: d[k]
  }

  function Partition(d: Dict): Parts {
    Parts(OnlyBare(d), Unprefixed(APP, d), Unprefixed(USER, d))
  }

  function Merge(app: Dict, user: Dict, session: Dict): Dict {
    Prefixed(APP, app) + Prefixed(USER, user) + session
  }

  /** What of a delta is ever stored. */
  function Persistent(d: Dict): Dict {
    map k | k in d && !ScopeOf(k).Temporary? :: d[k]
  }

  /** The keys of a delta that reach a reader of the given scopes. */
  function Reaching(d: Dict, toApp: bool, toUser: bool, toSession: bool): Dict {
    map k | k in d && Reaches(ScopeOf(k), toApp, toUser, toSession) :: d[k]
  }

  predicate Reaches(scope: Scope, toApp: bool, toUser: bool, toSession: bool) {
    match scope
    case Temporary => false
    case OfApp => toApp
    case OfUser => toUser
    case OfSession => toSession
  }

  function OnlyIf(b: bool, d: Dict): Dict {
    if b then d else map[]
  }

  predicate AllBare(d: Dict) {
    forall k :: k in d ==> ScopeOf(k).OfSession?
  }

  lemma UnprefixedAt(prefix: string, d: Dict, j: string)
    ensures j in Unprefixed(prefix, d) <==> prefix + j in d
    ensures j in Unprefixed(prefix, d) ==> Unprefixed(prefix, d)[j] == d[prefix + j]
  {
    assert (prefix + j)[|prefix|..] == j;
    forall k | k in d && prefix <= k && k[|prefix|..] == j ensures k == prefix + j {
      assert k == prefix + k[|prefix|..];
    }
  }

  lemma PrefixedAt(prefix: string, d: Dict, k: string)
    ensures k in Prefixed(prefix, d) <==> prefix <= k && k[|prefix|..] in d
    ensures k in Prefixed(prefix, d) ==> Prefixed(prefix, d)[k] == d[k[|prefix|..]]
  {
    forall j | j in d ensures (prefix + j)[|prefix|..] == j {
    }
    if prefix <= k {
      assert k == prefix + k[|prefix|..];
    }
  }

  lemma ScopesExclude(k: string)
    ensures APP <= k ==> !(USER <= k) && !(TEMP <= k)
    ensures USER <= k ==> !(TEMP <= k)
  {
    assert APP[0] == 'a' && USER[0] == 'u' && TEMP[0] == 't';
  }

  /** Where a merged dict gets a key from. */
  lemma MergedAt(app: Dict, user: Dict, session: Dict, k: string)
    requires AllBare(session)
    ensures k in Merge(app, user, session) <==>
              match ScopeOf(k)
              case Temporary => false
              case OfApp => k[|APP|..] in app
              case OfUser => k[|USER|..] in user
              case OfSession => k in session
    ensures k in Merge(app, user, session) ==>
              Merge(app, user, session)[k] ==
              if ScopeOf(k).OfApp? then app[k[|APP|..]] else if ScopeOf(k).OfUser? then user[k[|USER|..]] else session[k]
  {
    ScopesExclude(k);
    PrefixedAt(APP, app, k);
    PrefixedAt(USER, user, k);
  }

  predicate SameAt(c: Dict, d: Dict, k: string) {
    (k in c <==> k in d) && (k in c ==> c[k] == d[k])
  }

  lemma SameEverywhere(c: Dict, d: Dict)
    requires forall k :: SameAt(c, d, k)
    ensures c == d
  {
    forall k ensures (k in c <==> k in d) && (k in c ==> c[k] == d[k]) {
      assert SameAt(c, d, k);
    }
  }

  lemma MergeAfterPartitionAt(app: Dict, user: Dict, session: Dict, delta: Dict, toApp: bool, toUser: bool, toSession: bool, k: string)
    requires AllBare(session)
    ensures var p := Partition(delta);
            AllBare(session + OnlyIf(toSession, p.session))
            && SameAt(Merge(app + OnlyIf(toApp, p.app), user + OnlyIf(toUser, p.user), session + OnlyIf(toSession, p.session)),
                      Merge(app, user, session) + Reaching(delta, toApp, toUser, toSession), k)
  {
    hide Merge, Unprefixed, Prefixed;
    var p := Partition(delta);
    ScopesExclude(k);
    MergedAt(app + OnlyIf(toApp, p.app), user + OnlyIf(toUser, p.user), session + OnlyIf(toSession, p.session), k);
    MergedAt(app, user, session, k);
    if APP <= k {
      UnprefixedAt(APP, delta, k[|APP|..]);
      assert APP + k[|APP|..] == k;
    } else if USER <= k {
      UnprefixedAt(USER, delta, k[|USER|..]);
      assert USER + k[|USER|..] == k;
    }
  }

  /**
   * Storing the parts of a delta and merging again is one dict update: with the keys of the
   * scopes the reader shares with the writer, and never a temporary key.
   */
  lemma MergeAfterPartition(app: Dict, user: Dict, session: Dict, delta: Dict, toApp: bool, toUser: bool, toSession: bool)
    requires AllBare(session)
    ensures var p := Partition(delta);
            AllBare(session + OnlyIf(toSession, p.session))
            && Merge(app + OnlyIf(toApp, p.app), user + OnlyIf(toUser, p.user), session + OnlyIf(toSession, p.session))
               == Merge(app, user, session) + Reaching(delta, toApp, toUser, toSession)
  {
    hide *;
    var p := Partition(delta);
    var stored := Merge(app + OnlyIf(toApp, p.app), user + OnlyIf(toUser, p.user), session + OnlyIf(toSession, p.session));
    var updated := Merge(app, user, session) + Reaching(delta, toApp, toUser, toSession);
    forall k ensures SameAt(stored, updated, k) {
      MergeAfterPartitionAt(app, user, session, delta, toApp, toUser, toSession, k);
    }
    SameEverywhere(stored, updated);
    MergeAfterPartitionAt(app, user, session, delta, toApp, toUser, toSession, "");
  }

  lemma StaysBare(session: Dict, delta: Dict)
    requires AllBare(session)
    ensures AllBare(session + Partition(delta).session)
  {
    hide ScopeOf, Unprefixed;
  }

  lemma NothingToMerge()
    ensures Prefixed(APP, map[]) == map[] && Prefixed(USER, map[]) == map[] && Merge(map[], map[], map[]) == map[]
  {
  }

  /** A state dict survives storage, except for its temporary keys. */
  lemma PartitionRoundTrip(d: Dict)
    ensures Merge(Partition(d).app, Partition(d).user, Partition(d).session) == Persistent(d)
  {
    hide Merge, Partition, Prefixed;
    var p := Partition(d);
    MergeAfterPartition(map[], map[], map[], d, true, true, true);
    NothingToMerge();
    assert map[] + p.app == p.app && map[] + p.user == p.user && map[] + p.session == p.session;
    assert map[] + Reaching(d, true, true, true) == Persistent(d);
  }

  // ---- the loops that compute them -----------------------------------------------------

  lemma UnprefixedOfUpdateAt(prefix: string, d: Dict, k: string, v: string, j: string)
    requires k !in d
    ensures SameAt(Unprefixed(prefix, d[k := v]),
                   if prefix <= k then Unprefixed(prefix, d)[k[|prefix|..] := v] else Unprefixed(prefix, d), j)
  {
    hide Unprefixed;
    UnprefixedAt(prefix, d[k := v], j);
    UnprefixedAt(prefix, d, j);
    assert (prefix + j)[|prefix|..] == j;
    if prefix <= k {
      assert prefix + k[|prefix|..] == k;
    }
  }

  lemma UnprefixedOfUpdate(prefix: string, d: Dict, k: string, v: string)
    requires k !in d
    ensures Unprefixed(prefix, d[k := v]) ==
            if prefix <= k then Unprefixed(prefix, d)[k[|prefix|..] := v] else Unprefixed(prefix, d)
  {
    hide *;
    var whole := Unprefixed(prefix, d[k := v]);
    var grown := if prefix <= k then Unprefixed(prefix, d)[k[|prefix|..] := v] else Unprefixed(prefix, d);
    forall j ensures SameAt(whole, grown, j) {
      UnprefixedOfUpdateAt(prefix, d, k, v, j);
    }
    SameEverywhere(whole, grown);
  }

  lemma PrefixedOfUpdateAt(prefix: string, d: Dict, k: string, v: string, j: string)
    requires k !in d
    ensures SameAt(Prefixed(prefix, d[k := v]), Prefixed(prefix, d)[prefix + k := v], j)
  {
    hide Prefixed;
    PrefixedAt(prefix, d[k := v], j);
    PrefixedAt(prefix, d, j);
    assert (prefix + k)[|prefix|..] == k;
    if prefix <= j {
      assert prefix + j[|prefix|..] == j;
    }
  }

  lemma PrefixedOfUpdate(prefix: string, d: Dict, k: string, v: string)
    requires k !in d
    ensures Prefixed(prefix, d[k := v]) == Prefixed(prefix, d)[prefix + k := v]
  {
    hide *;
    var whole, grown := Prefixed(prefix, d[k := v]), Prefixed(prefix, d)[prefix + k := v];
    forall j ensures SameAt(whole, grown, j) {
      PrefixedOfUpdateAt(prefix, d, k, v, j);
    }
    SameEverywhere(whole, grown);
  }

  /** The part of a dict whose keys are still to be visited. */
  function Visited(d: Dict, rest: set<string>): Dict {
    map k | k in d && k !in rest :: d[k]
  }

  lemma VisitNext(d: Dict, rest: set<string>, k: string)
    requires rest <= d.Keys && k in rest
    ensures k !in Visited(d, rest) && Visited(d, rest - {k}) == Visited(d, rest)[k := d[k]]
  {
  }

  /** Visiting one more key grows exactly the part it belongs to. */
  lemma PartitionOfUpdate(d: Dict, k: string, v: string)
    requires k !in d
    ensures var p := Partition(d);
            Partition(d[k := v]) ==
            match ScopeOf(k)
            case Temporary => p
            case OfApp => p.(app := p.app[k[|APP|..] := v])
            case OfUser => p.(user := p.user[k[|USER|..] := v])
            case OfSession => p.(session := p.session[k := v])
  {
    hide Unprefixed;
    UnprefixedOfUpdate(APP, d, k, v);
    UnprefixedOfUpdate(USER, d, k, v);
    ScopesExclude(k);
    assert OnlyBare(d[k := v]) == if ScopeOf(k).OfSession? then OnlyBare(d)[k := v] else OnlyBare(d);
  }

  method PartitionState(state: Dict) returns (session: Dict, app: Dict, user: Dict)
    ensures Parts(session, app, user) == Partition(state)
  {
    session, app, user := map[], map[], map[];
    var rest := state.Keys;
    assert Visited(state, rest) == map[] && Partition(map[]) == Parts(map[], map[], map[]);
    hide Partition, Visited;
    while rest != {}
      invariant rest <= state.Keys
      invariant Parts(session, app, user) == Partition(Visited(state, rest))
      decreases rest
    {
      var k :| k in rest;
      VisitNext(state, rest, k);
      PartitionOfUpdate(Visited(state, rest), k, state[k]);
      if TEMP <= k {
      } else if APP <= k {
        app := app[k[|APP|..] := state[k]];
      } else if USER <= k {
        user := user[k[|USER|..] := state[k]];
      } else {
        session := session[k := state[k]];
      }
      rest := rest - {k};
    }
    VisitedAll(state);
  }

  lemma VisitedAll(d: Dict)
    ensures Visited(d, {}) == d
  {
  }

  lemma UpdateOfSum(merged: Dict, d: Dict, k: string, v: string)
    ensures (merged + d)[k := v] == merged + d[k := v]
  {
  }

  /** One of the two renaming loops of `_merge_state`. */
  method AddPrefixed(merged: Dict, prefix: string, d: Dict) returns (r: Dict)
    ensures r == merged + Prefixed(prefix, d)
  {
    r := merged;
    var rest := d.Keys;
    assert Visited(d, rest) == map[] && Prefixed(prefix, map[]) == map[] && merged + map[] == merged;
    hide *;
    while rest != {}
      invariant rest <= d.Keys
      invariant r == merged + Prefixed(prefix, Visited(d, rest))
      decreases rest
    {
      var k :| k in rest;
      VisitNext(d, rest, k);
      PrefixedOfUpdate(prefix, Visited(d, rest), k, d[k]);
      UpdateOfSum(merged, Prefixed(prefix, Visited(d, rest)), prefix + k, d[k]);
      r := r[prefix + k := d[k]];
      rest := rest - {k};
    }
    VisitedAll(d);
  }

  method MergeState(app: Dict, user: Dict, session: Dict) returns (merged: Dict)
    ensures merged == Merge(app, user, session)
  {
    merged := map[];
    merged := AddPrefixed(merged, APP, app);
    merged := AddPrefixed(merged, USER, user);
    merged := merged + session;
    assert map[] + Prefixed(APP, app) == Prefixed(APP, app);
  }
}
