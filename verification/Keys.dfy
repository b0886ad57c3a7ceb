/** Keys of events inside a segment map (codec.py). */
module EventKeys {
  import opened Text

  const TS_DIGITS: nat := 20

  /** End sentinel of a key range: every event key starts with a digit, and ':' follows '9'. */
  const KEY_RANGE_END: string := ":"

  function EventMapKey(micros: nat, eventId: string): string {
    Field(Padded(micros, TS_DIGITS), eventId)
  }

  /** `int(key.split(":", 1)[0])`; the source then divides by a million. */
  function MicrosFromMapKey(key: string): nat
    requires AllDigits(key[..FirstColon(key)])
  {
    Value(key[..FirstColon(key)])
  }

  /** Lower bound of an `after_timestamp` range. */
  function CutoffKey(micros: nat): string {
    Field(Padded(micros, TS_DIGITS), "")
  }

  /** What `map_get_by_key_range(lo, ":")` selects. */
  predicate InRange(lo: string, key: string) {
    AtMost(lo, key) && Less(key, KEY_RANGE_END)
  }

  /** Twenty digits, a colon, the id: times of up to twenty digits are padded with zeros in front. */
  lemma EventKeyFormat(micros: nat, id: string)
    requires micros < 100_000_000_000_000_000_000
    ensures var key := EventMapKey(micros, id);
            |key| == 21 + |id| && AllDigits(key[..20]) && Value(key[..20]) == micros && key[20..] == ":" + id
  {
    TwentyDigits();
    hide Pow10;
    PaddedIsFixed(micros, 20);
    ValueOfPadded(micros, 20);
    assert EventMapKey(micros, id)[..20] == Padded(micros, 20);
  }

  lemma PrefixParsesBack(micros: nat, id: string)
    ensures var key := EventMapKey(micros, id);
            AllDigits(key[..FirstColon(key)]) && MicrosFromMapKey(key) == micros
  {
    var p := Padded(micros, TS_DIGITS);
    FirstColonOfField(p, id);
    assert EventMapKey(micros, id)[..|p|] == p;
    ValueOfPadded(micros, TS_DIGITS);
  }

  /** Distinct events never share a slot, whatever the event id contains. */
  lemma EventKeyInjective(m: nat, i: string, n: nat, j: string)
    ensures EventMapKey(m, i) == EventMapKey(n, j) <==> m == n && i == j
  {
    if EventMapKey(m, i) == EventMapKey(n, j) {
      FirstFieldUnique(Padded(m, TS_DIGITS), i, Padded(n, TS_DIGITS), j);
      ValueOfPadded(m, TS_DIGITS);
      ValueOfPadded(n, TS_DIGITS);
    }
  }

  /** String order of keys is the lexicographic order of (micros, id). */
  lemma EventKeyOrder(m: nat, i: string, n: nat, j: string)
    requires m < 100_000_000_000_000_000_000 && n < 100_000_000_000_000_000_000
    ensures Less(EventMapKey(m, i), EventMapKey(n, j)) <==> m < n || (m == n && Less(i, j))
  {
    TwentyDigits();
    hide Pow10, Padded, Fixed;
    PaddedIsFixed(m, TS_DIGITS);
    PaddedIsFixed(n, TS_DIGITS);
    var x, y := [COLON] + i, [COLON] + j;
    assert EventMapKey(m, i) == Fixed(m, TS_DIGITS) + x && EventMapKey(n, j) == Fixed(n, TS_DIGITS) + y;
    if m < n {
      FixedOrdersNumbers(m, n, TS_DIGITS, x, y);
    } else if n < m {
      FixedOrdersNumbers(n, m, TS_DIGITS, y, x);
      LessAsymmetric(EventMapKey(n, j), EventMapKey(m, i));
    } else {
      LessAfterPrefix(Fixed(m, TS_DIGITS), x, y);
      LessAfterPrefix([COLON], i, j);
    }
  }

  /** The bound is tight: every later timestamp sorts before the last twenty-digit one. */
  lemma BeyondTwentyDigitsOrderBreaks(m: nat, i: string, j: string)
    requires m >= 100_000_000_000_000_000_000
    ensures Less(EventMapKey(m, i), EventMapKey(99_999_999_999_999_999_999, j))
  {
    TwentyDigits();
    hide Less, Padded, Pow10;
    LongNumberBelowNines(m, TS_DIGITS, [COLON] + i, j);
    assert EventMapKey(m, i) == Padded(m, TS_DIGITS) + ([COLON] + i);
  }

  /** The range from a cutoff selects exactly the keys at or after it. */
  lemma CutoffSelects(cutoff: nat, m: nat, i: string)
    requires m < 100_000_000_000_000_000_000 && cutoff < 100_000_000_000_000_000_000
    ensures InRange(CutoffKey(cutoff), EventMapKey(m, i)) <==> m >= cutoff
  {
    EventKeyOrder(cutoff, "", m, i);
    EventKeyInjective(cutoff, "", m, i);
    assert CutoffKey(cutoff) == EventMapKey(cutoff, "");
    assert EventMapKey(m, i)[0] == Padded(m, TS_DIGITS)[0];
  }
}

/** Primary keys of records (keys.py). */
module RecordKeys {
  import opened Options
  import opened Text

  const USER_SCOPE_SID: string := "user"
  const ARTIFACT_HEAD_SUFFIX: string := "__head__"
  const MEMORY_KW_PREFIX: string := "kw"
  const SESSION_MANIFEST_SUFFIX: string := "sl"
  const INDEX_DIGITS: nat := 8

  /** The keys as they are stored; an index or a version has at least eight digits. */
  lemma KeyFormats(app: string, user: string, id: string, name: string, n: nat)
    ensures SessionKey(app, user, id) == app + ":" + user + ":" + id
    ensures SegmentKey(app, user, id, n) == app + ":" + user + ":" + id + ":g:" + Padded(n, 8)
    ensures SessionManifestKey(app, user) == app + ":" + user + ":sl"
    ensures UserStateKey(app, user) == app + ":" + user
    ensures MemoryKey(app, user, id, name) == app + ":" + user + ":" + id + ":" + name
    ensures MemoryPostingKey(app, user, name) == app + ":" + user + ":kw:" + name
    ensures ArtifactKey(app, user, id, name, n) == app + ":" + user + ":" + id + ":" + name + ":" + Padded(n, 8)
    ensures ArtifactHeadKey(app, user, id, name) == app + ":" + user + ":" + id + ":" + name + ":__head__"
    ensures ScopeTuple(app, user, id) == app + ":" + user + ":" + id
    ensures "user:" <= name ==> ArtifactScopeId(name, Some(id)) == ArtifactScopeId(name, None) == Some("user")
    ensures !("user:" <= name) ==> ArtifactScopeId(name, Some(id)) == Some(id) && ArtifactScopeId(name, None) == None
  {
    hide Padded;
    assert ([COLON] + "g:") == ":g:" && ([COLON] + "kw") + [COLON] == ":kw:" && [COLON] + "sl" == ":sl" && [COLON] + "__head__" == ":__head__";
  }

  // ---- the sessions set ----------------------------------------------------------

  function SessionKey(app: string, user: string, session: string): string {
    Field(app, Field(user, session))
  }

  function SegmentKey(app: string, user: string, session: string, idx: nat): string {
    Field(app, Field(user, Field(session, "g:" + Padded(idx, INDEX_DIGITS))))
  }

  function SessionManifestKey(app: string, user: string): string {
    Field(app, Field(user, SESSION_MANIFEST_SUFFIX))
  }

  /** Everything kept in the sessions set. */
  datatype SessionSetRecord =
    | SessionRow(app: string, user: string, session: string)
    | SegmentRow(app: string, user: string, session: string, idx: nat)
    | ManifestRow(app: string, user: string)

  function SessionSetKey(r: SessionSetRecord): string {
    match r
    case SessionRow(a, u, s) => SessionKey(a, u, s)
    case SegmentRow(a, u, s, n) => SegmentKey(a, u, s, n)
    case ManifestRow(a, u) => SessionManifestKey(a, u)
  }

  predicate PlainScope(app: string, user: string) {
    NoColon(app) && NoColon(user)
  }

  /** Ids as ADK hands them out: no separator, and not the reserved manifest slot. */
  predicate PlainSessionRecord(r: SessionSetRecord) {
    PlainScope(r.app, r.user) && (!r.ManifestRow? ==> NoColon(r.session) && r.session != SESSION_MANIFEST_SUFFIX)
  }

  lemma PaddedInjective(m: nat, n: nat, w: nat)
    requires Padded(m, w) == Padded(n, w)
    ensures m == n
  {
    ValueOfPadded(m, w);
    ValueOfPadded(n, w);
  }

  /** Equal keys under plain apps and users: equal scopes and equal rests. */
  lemma ScopesUnique(a: string, u: string, r: string, b: string, v: string, s: string)
    requires PlainScope(a, u) && PlainScope(b, v) && Field(a, Field(u, r)) == Field(b, Field(v, s))
    ensures a == b && u == v && r == s
  {
    FirstFieldUnique(a, Field(u, r), b, Field(v, s));
    FirstFieldUnique(u, r, v, s);
  }

  function SessionRest(r: SessionSetRecord): string {
    match r
    case SessionRow(_, _, s) => s
    case SegmentRow(_, _, s, n) => Field(s, "g:" + Padded(n, INDEX_DIGITS))
    case ManifestRow(_, _) => SESSION_MANIFEST_SUFFIX
  }

  /** Session, segment and manifest records never share a key, within or across families. */
  lemma SessionSetKeysInjective(r: SessionSetRecord, q: SessionSetRecord)
    requires PlainSessionRecord(r) && PlainSessionRecord(q)
    ensures SessionSetKey(r) == SessionSetKey(q) <==> r == q
  {
    if SessionSetKey(r) == SessionSetKey(q) {
      ScopesUnique(r.app, r.user, SessionRest(r), q.app, q.user, SessionRest(q));
      FieldHasColon(r);
      FieldHasColon(q);
      if r.SegmentRow? && q.SegmentRow? {
        var x, y := Padded(r.idx, INDEX_DIGITS), Padded(q.idx, INDEX_DIGITS);
        FirstFieldUnique(r.session, "g:" + x, q.session, "g:" + y);
        assert x == ("g:" + x)[2..] && y == ("g:" + y)[2..];
        PaddedInjective(r.idx, q.idx, INDEX_DIGITS);
      }
    }
  }

  lemma FieldHasColon(r: SessionSetRecord)
    requires PlainSessionRecord(r)
    ensures NoColon(SessionRest(r)) <==> !r.SegmentRow?
  {
    if r.SegmentRow? {
      assert SessionRest(r)[|r.session|] == COLON;
    }
  }

  /** The reserved id is exactly the collision between a session and its user's manifest. */
  lemma ManifestCollision(app: string, user: string, session: string)
    ensures SessionKey(app, user, session) == SessionManifestKey(app, user) <==> session == SESSION_MANIFEST_SUFFIX
  {
    var k, l := SessionKey(app, user, session), SessionManifestKey(app, user);
    assert session == k[|app| + |user| + 2..];
    assert SESSION_MANIFEST_SUFFIX == l[|app| + |user| + 2..];
  }

  /** A separator in a session id collides exactly when the id spells out another session's segment. */
  lemma ColonInSessionIdCollides(app: string, user: string, session: string, other: string, idx: nat)
    ensures SessionKey(app, user, session) == SegmentKey(app, user, other, idx)
            <==> session == Field(other, "g:" + Padded(idx, INDEX_DIGITS))
  {
    var k, l := SessionKey(app, user, session), SegmentKey(app, user, other, idx);
    assert session == k[|app| + |user| + 2..];
    assert Field(other, "g:" + Padded(idx, INDEX_DIGITS)) == l[|app| + |user| + 2..];
  }

  // ---- the user-state set --------------------------------------------------------

  function UserStateKey(app: string, user: string): string {
    Field(app, user)
  }

  /** One user-state record per app and user; the user id may contain anything. */
  lemma UserStateKeysInjective(a: string, u: string, b: string, v: string)
    requires NoColon(a) && NoColon(b)
    ensures UserStateKey(a, u) == UserStateKey(b, v) <==> a == b && u == v
  {
    if UserStateKey(a, u) == UserStateKey(b, v) {
      FirstFieldUnique(a, u, b, v);
    }
  }

  /** A colon in an app id shifts the boundary, and two users share a record. */
  lemma ColonInAppCollides(a: string, b: string, u: string)
    ensures UserStateKey(Field(a, b), u) == UserStateKey(a, Field(b, u))
  {
    assert (a + [COLON] + b) + [COLON] + u == a + [COLON] + (b + [COLON] + u);
  }

  // ---- the memory set ------------------------------------------------------------

  function MemoryKey(app: string, user: string, session: string, eventId: string): string {
    Field(app, Field(user, Field(session, eventId)))
  }

  function MemoryPostingKey(app: string, user: string, token: string): string {
    Field(app, Field(user, Field(MEMORY_KW_PREFIX, token)))
  }

  datatype MemorySetRecord =
    | MemoryRow(app: string, user: string, session: string, eventId: string)
    | PostingRow(app: string, user: string, token: string)

  function MemorySetKey(r: MemorySetRecord): string {
    match r
    case MemoryRow(a, u, s, e) => MemoryKey(a, u, s, e)
    case PostingRow(a, u, t) => MemoryPostingKey(a, u, t)
  }

  predicate PlainMemoryRecord(r: MemorySetRecord) {
    PlainScope(r.app, r.user) && (r.MemoryRow? ==> NoColon(r.session) && r.session != MEMORY_KW_PREFIX)
  }

  /** Memory rows and posting lists never share a key; event ids and tokens may contain anything. */
  lemma MemorySetKeysInjective(r: MemorySetRecord, q: MemorySetRecord)
    requires PlainMemoryRecord(r) && PlainMemoryRecord(q)
    ensures MemorySetKey(r) == MemorySetKey(q) <==> r == q
  {
    if MemorySetKey(r) == MemorySetKey(q) {
      var s := if r.MemoryRow? then r.session else MEMORY_KW_PREFIX;
      var x := if r.MemoryRow? then r.eventId else r.token;
      var t := if q.MemoryRow? then q.session else MEMORY_KW_PREFIX;
      var y := if q.MemoryRow? then q.eventId else q.token;
      ScopesUnique(r.app, r.user, Field(s, x), q.app, q.user, Field(t, y));
      FirstFieldUnique(s, x, t, y);
    }
  }

  /** A memory row meets a posting list exactly in the reserved session "kw". */
  lemma PostingCollision(app: string, user: string, session: string, eventId: string, token: string)
    requires NoColon(session)
    ensures MemoryKey(app, user, session, eventId) == MemoryPostingKey(app, user, token)
            <==> session == MEMORY_KW_PREFIX && eventId == token
  {
    var k, l := MemoryKey(app, user, session, eventId), MemoryPostingKey(app, user, token);
    assert Field(session, eventId) == k[|app| + |user| + 2..];
    assert Field(MEMORY_KW_PREFIX, token) == l[|app| + |user| + 2..];
    if k == l {
      FirstFieldUnique(session, eventId, MEMORY_KW_PREFIX, token);
    }
  }

  // ---- the artifacts set ---------------------------------------------------------

  function ArtifactKey(app: string, user: string, scope: string, filename: string, version: nat): string {
    Field(app, Field(user, Field(scope, Field(filename, Padded(version, INDEX_DIGITS)))))
  }

  function ArtifactHeadKey(app: string, user: string, scope: string, filename: string): string {
    Field(app, Field(user, Field(scope, Field(filename, ARTIFACT_HEAD_SUFFIX))))
  }

  datatype ArtifactSetRecord =
    | ArtifactRow(app: string, user: string, scope: string, filename: string, version: nat)
    | HeadRow(app: string, user: string, scope: string, filename: string)

  function ArtifactSetKey(r: ArtifactSetRecord): string {
    match r
    case ArtifactRow(a, u, s, f, v) => ArtifactKey(a, u, s, f, v)
    case HeadRow(a, u, s, f) => ArtifactHeadKey(a, u, s, f)
  }

  predicate PlainArtifactRecord(r: ArtifactSetRecord) {
    PlainScope(r.app, r.user) && NoColon(r.scope)
  }

  function ArtifactSuffix(r: ArtifactSetRecord): (s: string)
    ensures NoColon(s)
  {
    if r.ArtifactRow? then Padded(r.version, INDEX_DIGITS) else ARTIFACT_HEAD_SUFFIX
  }

  /** Versions and heads never share a key: any filename, and versions of any number of digits. */
  lemma ArtifactSetKeysInjective(r: ArtifactSetRecord, q: ArtifactSetRecord)
    requires PlainArtifactRecord(r) && PlainArtifactRecord(q)
    ensures ArtifactSetKey(r) == ArtifactSetKey(q) <==> r == q
  {
    if ArtifactSetKey(r) == ArtifactSetKey(q) {
      var x, y := ArtifactSuffix(r), ArtifactSuffix(q);
      ScopesUnique(r.app, r.user, Field(r.scope, Field(r.filename, x)), q.app, q.user, Field(q.scope, Field(q.filename, y)));
      FirstFieldUnique(r.scope, Field(r.filename, x), q.scope, Field(q.filename, y));
      LastFieldUnique(r.filename, x, q.filename, y);
      assert ARTIFACT_HEAD_SUFFIX[0] == '_';
      if r.ArtifactRow? && q.ArtifactRow? {
        PaddedInjective(r.version, q.version, INDEX_DIGITS);
      }
    }
  }

  predicate UserScoped(filename: string) {
    "user:" <= filename
  }

  /** None is the source's ValueError. */
  function ArtifactScopeId(filename: string, session: Option<string>): Option<string> {
    if UserScoped(filename) then Some(USER_SCOPE_SID) else session
  }

  function ScopeTuple(app: string, user: string, scope: string): string {
    Field(app, Field(user, scope))
  }

  lemma ScopeTupleInjective(a: string, u: string, s: string, b: string, v: string, t: string)
    requires PlainScope(a, u) && PlainScope(b, v)
    ensures ScopeTuple(a, u, s) == ScopeTuple(b, v, t) <==> a == b && u == v && s == t
  {
    if ScopeTuple(a, u, s) == ScopeTuple(b, v, t) {
      ScopesUnique(a, u, s, b, v, t);
    }
  }

  /**
   * Two saves address the same row exactly when they mean the same artifact version: a
   * user-scoped filename is shared by all sessions, every other one is private to its
   * session. This holds even for a session named "user".
   */
  lemma ArtifactSlots(app: string, user: string, f: string, s: string, v: nat, g: string, t: string, w: nat)
    requires PlainScope(app, user) && NoColon(s) && NoColon(t)
    ensures ArtifactKey(app, user, ArtifactScopeId(f, Some(s)).value, f, v)
            == ArtifactKey(app, user, ArtifactScopeId(g, Some(t)).value, g, w)
            <==> f == g && v == w && (UserScoped(f) || s == t)
  {
    var x := ArtifactRow(app, user, ArtifactScopeId(f, Some(s)).value, f, v);
    var y := ArtifactRow(app, user, ArtifactScopeId(g, Some(t)).value, g, w);
    ArtifactSetKeysInjective(x, y);
  }
}
