/** The artifact service on its rows and head counters, against a plain list of versions per artifact. */
module ArtifactService {
  import opened Options
  import opened RecordKeys

  datatype ArtifactId = ArtifactId(app: string, user: string, scope: string, filename: string)

  /** An artifact part; the service cannot store a part of an unknown kind. */
  datatype Part = Stored(mime: string, data: seq<bv8>) | UnknownKind

  datatype Error = SessionRequired | NotSupported | RecordExists

  datatype Result<T> = Ok(value: T) | Err(error: Error)

  /** Per artifact its versions in order; None where a version was taken but nothing stored. */
  type Shelf = map<ArtifactId, seq<Option<Part>>>

  function Versions(shelf: Shelf, id: ArtifactId): seq<Option<Part>> {
    if id in shelf then shelf[id] else []
  }

  predicate Holds(versions: seq<Option<Part>>, v: int) {
    0 <= v < |versions| && versions[v].Some?
  }

  /** The newest stored part. */
  function Newest(versions: seq<Option<Part>>): Option<Part> {
    if versions == [] then None
    else if versions[|versions| - 1].Some? then versions[|versions| - 1]
    else Newest(versions[..|versions| - 1])
  }

  /** One version, or without a version the newest. */
  function Lookup(versions: seq<Option<Part>>, version: Option<nat>): Option<Part> {
    if version.None? then Newest(versions)
    else if version.value < |versions| then versions[version.value] else None
  }

  lemma {:induction false} NewestIsLargest(versions: seq<Option<Part>>, v: nat)
    requires v < |versions| && versions[v].Some? && forall w :: v < w < |versions| ==> versions[w].None?
    ensures Newest(versions) == versions[v]
    decreases |versions|
  {
    if v < |versions| - 1 {
      NewestIsLargest(versions[..|versions| - 1], v);
    }
  }

  lemma {:induction false} NewestOfNone(versions: seq<Option<Part>>)
    requires forall v :: 0 <= v < |versions| ==> versions[v].None?
    ensures Newest(versions) == None
    decreases |versions|
  {
    if versions != [] {
      NewestOfNone(versions[..|versions| - 1]);
    }
  }

  predicate Increasing(versions: seq<nat>) {
    forall i, j :: 0 <= i < j < |versions| ==> versions[i] < versions[j]
  }

  function InsertVersion(v: nat, sorted: seq<nat>): seq<nat> {
    if sorted == [] || v <= sorted[0] then [v] + sorted else [sorted[0]] + InsertVersion(v, sorted[1..])
  }

  function SortVersions(versions: seq<nat>): seq<nat> {
    if versions == [] then [] else InsertVersion(versions[0], SortVersions(versions[1..]))
  }

  lemma {:induction false} InsertVersionSorts(v: nat, sorted: seq<nat>)
    requires Increasing(sorted) && v !in sorted
    ensures Increasing(InsertVersion(v, sorted))
    ensures forall w :: w in InsertVersion(v, sorted) <==> w == v || w in sorted
  {
    if sorted != [] {
      assert sorted == [sorted[0]] + sorted[1..];
      if v > sorted[0] {
        InsertVersionSorts(v, sorted[1..]);
        var rest := InsertVersion(v, sorted[1..]);
        forall i | 0 <= i < |rest| ensures sorted[0] < rest[i] {
          assert rest[i] == v || rest[i] in sorted[1..];
        }
      }
    }
  }

  lemma {:induction false} SortVersionsSorts(versions: seq<nat>)
    requires forall i, j :: 0 <= i < j < |versions| ==> versions[i] != versions[j]
    ensures Increasing(SortVersions(versions))
    ensures forall w :: w in SortVersions(versions) <==> w in versions
  {
    if versions != [] {
      SortVersionsSorts(versions[1..]);
      assert versions == [versions[0]] + versions[1..];
      assert versions[0] !in versions[1..];
      InsertVersionSorts(versions[0], SortVersions(versions[1..]));
    }
  }

  function IdOf(app: string, user: string, filename: string, session: Option<string>): Option<ArtifactId> {
    var scope := ArtifactScopeId(filename, session);
    if scope.Some? then Some(ArtifactId(app, user, scope.value, filename)) else None
  }

  /** Two calls mean the same artifact: a "user:" file of one user, or any other file of one session. */
  predicate SameArtifact(a: string, u: string, f: string, s: Option<string>, b: string, v: string, g: string, t: Option<string>) {
    a == b && u == v && f == g && ("user:" <= f || s == t)
  }

  /** An artifact needs a session unless its name starts with "user:". */
  lemma IdOfMeaning(a: string, u: string, f: string, s: Option<string>, b: string, v: string, g: string, t: Option<string>)
    ensures IdOf(a, u, f, s).None? <==> s.None? && !("user:" <= f)
    ensures IdOf(a, u, f, s).Some? && IdOf(b, v, g, t).Some?
            ==> (IdOf(a, u, f, s) == IdOf(b, v, g, t) <==> SameArtifact(a, u, f, s, b, v, g, t))
  {
  }

  /** What a load returns, of one version or without a version of the newest. */
  function LoadOf(shelf: Shelf, app: string, user: string, filename: string, session: Option<string>, version: Option<nat>): Result<Option<Part>> {
    var id := IdOf(app, user, filename, session);
    if id.None? then Err(SessionRequired) else Ok(Lookup(Versions(shelf, id.value), version))
  }

  /** The version that the next save would get. */
  function NextOf(shelf: Shelf, app: string, user: string, filename: string, session: Option<string>): nat {
    var id := IdOf(app, user, filename, session);
    if id.None? then 0 else |Versions(shelf, id.value)|
  }

  /** For every other artifact each load and the next version are as they were. */
  ghost predicate OthersUntouched(before: Shelf, after: Shelf, app: string, user: string, filename: string, session: Option<string>) {
    forall b, v, g, t, version :: !SameArtifact(app, user, filename, session, b, v, g, t)
      ==> LoadOf(after, b, v, g, t, version) == LoadOf(before, b, v, g, t, version) && NextOf(after, b, v, g, t) == NextOf(before, b, v, g, t)
  }

  lemma OneArtifactChanges(before: Shelf, after: Shelf, app: string, user: string, filename: string, session: Option<string>)
    requires var id := IdOf(app, user, filename, session);
             id.None? ==> after == before
    requires var id := IdOf(app, user, filename, session);
             id.Some? ==> forall other :: other != id.value ==> Versions(after, other) == Versions(before, other)
    ensures OthersUntouched(before, after, app, user, filename, session)
  {
    forall b, v, g, t, version | !SameArtifact(app, user, filename, session, b, v, g, t)
      ensures LoadOf(after, b, v, g, t, version) == LoadOf(before, b, v, g, t, version) && NextOf(after, b, v, g, t) == NextOf(before, b, v, g, t)
    {
      IdOfMeaning(app, user, filename, session, b, v, g, t);
    }
  }

  class Service {
    var heads: map<ArtifactId, nat>
    var rows: map<(ArtifactId, nat), Part>
    ghost var shelf: Shelf

    ghost predicate Valid()
      reads this
    {
      && heads.Keys == shelf.Keys
      && (forall id :: id in heads ==> heads[id] == |shelf[id]|)
      && (forall id, v: nat :: (id, v) in rows <==> Holds(Versions(shelf, id), v))
      && (forall id, v: nat :: (id, v) in rows ==> Versions(shelf, id)[v] == Some(rows[(id, v)]))
    }

    constructor ()
      ensures Valid() && shelf == map[]
    {
      heads, rows, shelf := map[], map[], map[];
    }

    /** One atomic read and increment of the head. */
    method AllocateVersion(id: ArtifactId) returns (version: nat)
      requires Valid()
      modifies this`heads
      ensures version == |Versions(shelf, id)| && heads == old(heads)[id := version + 1]
    {
      version := if id in heads then heads[id] else 0;
      heads := heads[id := version + 1];
    }

    /** A save takes the next version of its artifact; it never meets an existing row. */
    method SaveArtifact(app: string, user: string, filename: string, session: Option<string>, part: Part) returns (r: Result<nat>)
      requires Valid()
      modifies this
      ensures Valid()
      ensures var id := IdOf(app, user, filename, session);
              if id.None? then r == Err(SessionRequired) && shelf == old(shelf)
              else
                var before := Versions(old(shelf), id.value);
                if part.UnknownKind? then r == Err(NotSupported) && shelf == old(shelf)[id.value := before + [None]]
                else r == Ok(|before|) && shelf == old(shelf)[id.value := before + [Some(part)]]
      ensures OthersUntouched(old(shelf), shelf, app, user, filename, session)
      ensures r.Ok? ==> r.value == NextOf(old(shelf), app, user, filename, session) && NextOf(shelf, app, user, filename, session) == r.value + 1
      ensures r.Ok? ==> LoadOf(shelf, app, user, filename, session, None) == Ok(Some(part))
                        && LoadOf(shelf, app, user, filename, session, Some(r.value)) == Ok(Some(part))
    {
      hide Lookup, OthersUntouched;
      r := SaveVersion(app, user, filename, session, part);
      OneArtifactChanges(old(shelf), shelf, app, user, filename, session);
      if r.Ok? {
        SavedReadsBack(Versions(old(shelf), IdOf(app, user, filename, session).value), part, 0);
      }
    }

    method SaveVersion(app: string, user: string, filename: string, session: Option<string>, part: Part) returns (r: Result<nat>)
      requires Valid()
      modifies this
      ensures Valid()
      ensures var id := IdOf(app, user, filename, session);
              if id.None? then r == Err(SessionRequired) && shelf == old(shelf)
              else
                var before := Versions(old(shelf), id.value);
                if part.UnknownKind? then r == Err(NotSupported) && shelf == old(shelf)[id.value := before + [None]]
                else r == Ok(|before|) && shelf == old(shelf)[id.value := before + [Some(part)]]
    {
      var found := IdOf(app, user, filename, session);
      if found.None? {
        return Err(SessionRequired);
      }
      var id := found.value;
      ghost var before := Versions(shelf, id);
      var version := AllocateVersion(id);
      if part.UnknownKind? {
        shelf := shelf[id := before + [None]];
        return Err(NotSupported);
      }
      if (id, version) in rows {
        return Err(RecordExists);
      }
      rows := rows[(id, version) := part];
      shelf := shelf[id := before + [Some(part)]];
      return Ok(version);
    }

    /** The query by tenant slot, filtered by filename, in whatever order it answers. */
    method VersionsFor(id: ArtifactId) returns (found: seq<nat>)
      ensures forall v: nat :: v in found <==> (id, v) in rows
      ensures forall i, j :: 0 <= i < j < |found| ==> found[i] != found[j]
    {
      found := [];
      var todo := rows.Keys;
      while todo != {}
        invariant todo <= rows.Keys
        invariant forall v: nat :: v in found <==> (id, v) in rows && (id, v) !in todo
        invariant forall i, j :: 0 <= i < j < |found| ==> found[i] != found[j]
        decreases |todo|
      {
        var key :| key in todo;
        todo := todo - {key};
        if (key.0.app, key.0.user, key.0.scope) == (id.app, id.user, id.scope) && key.0.filename == id.filename {
          found := found + [key.1];
        }
      }
    }

    method ListVersions(app: string, user: string, filename: string, session: Option<string>) returns (r: Result<seq<nat>>)
      requires Valid()
      ensures var id := IdOf(app, user, filename, session);
              if id.None? then r == Err(SessionRequired)
              else r.Ok? && Increasing(r.value)
                   && forall v: nat :: v in r.value <==> Holds(Versions(shelf, id.value), v)
    {
      var id := IdOf(app, user, filename, session);
      if id.None? {
        return Err(SessionRequired);
      }
      var found := VersionsFor(id.value);
      SortVersionsSorts(found);
      return Ok(SortVersions(found));
    }

    method Max(versions: seq<nat>) returns (v: nat)
      requires versions != []
      ensures v in versions && forall w :: w in versions ==> w <= v
    {
      v := versions[0];
      var i := 1;
      while i < |versions|
        invariant 1 <= i <= |versions|
        invariant v in versions && forall k :: 0 <= k < i ==> versions[k] <= v
      {
        if versions[i] > v {
          v := versions[i];
        }
        i := i + 1;
      }
    }

    method LoadArtifact(app: string, user: string, filename: string, session: Option<string>, version: Option<nat>) returns (r: Result<Option<Part>>)
      requires Valid()
      ensures r == LoadOf(shelf, app, user, filename, session, version)
    {
      var found := IdOf(app, user, filename, session);
      if found.None? {
        return Err(SessionRequired);
      }
      var id := found.value;
      ghost var stored := Versions(shelf, id);
      var wanted: nat;
      if version.None? {
        var versions := VersionsFor(id);
        if versions == [] {
          NewestOfNone(stored) by {
            assert forall v: nat :: Holds(stored, v) ==> (id, v) in rows && v in versions;
          }
          return Ok(None);
        }
        wanted := Max(versions);
        assert (id, wanted) in rows;
        NewestIsLargest(stored, wanted) by {
          assert forall v: nat :: Holds(stored, v) ==> (id, v) in rows && v in versions;
        }
      } else {
        wanted := version.value;
      }
      if (id, wanted) !in rows {
        return Ok(None);
      }
      return Ok(Some(rows[(id, wanted)]));
    }

    method RemoveRows(id: ArtifactId, versions: seq<nat>)
      modifies this`rows
      ensures forall k :: k in rows <==> k in old(rows) && !(k.0 == id && k.1 in versions)
      ensures forall k :: k in rows ==> rows[k] == old(rows)[k]
    {
      var i := 0;
      while i < |versions|
        invariant 0 <= i <= |versions|
        invariant forall k :: k in rows <==> k in old(rows) && !(k.0 == id && k.1 in versions[..i])
        invariant forall k :: k in rows ==> rows[k] == old(rows)[k]
      {
        rows := rows - {(id, versions[i])};
        i := i + 1;
        assert versions[..i] == versions[..i - 1] + [versions[i - 1]];
      }
      assert versions[..i] == versions;
    }

    /** The rows one by one, the head last. */
    method DeleteArtifact(app: string, user: string, filename: string, session: Option<string>) returns (r: Result<()>)
      requires Valid()
      modifies this
      ensures Valid()
      ensures var id := IdOf(app, user, filename, session);
              if id.None? then r == Err(SessionRequired) && shelf == old(shelf)
              else r == Ok(()) && shelf == old(shelf) - {id.value}
      ensures OthersUntouched(old(shelf), shelf, app, user, filename, session)
      ensures r.Ok? ==> NextOf(shelf, app, user, filename, session) == 0
                        && forall version :: LoadOf(shelf, app, user, filename, session, version) == Ok(None)
    {
      hide OthersUntouched;
      var found := IdOf(app, user, filename, session);
      if found.None? {
        OneArtifactChanges(old(shelf), shelf, app, user, filename, session);
        return Err(SessionRequired);
      }
      var id := found.value;
      var versions := VersionsFor(id);
      RemoveRows(id, versions);
      heads := heads - {id};
      shelf := shelf - {id};
      OneArtifactChanges(old(shelf), shelf, app, user, filename, session);
      return Ok(());
    }
  }

  /** After a save the artifact reads back, by its version and as the newest. */
  lemma SavedReadsBack(versions: seq<Option<Part>>, part: Part, v: nat)
    ensures Lookup(versions + [Some(part)], Some(|versions|)) == Some(part)
    ensures Lookup(versions + [Some(part)], None) == Some(part)
    ensures v != |versions| ==> Lookup(versions + [Some(part)], Some(v)) == Lookup(versions, Some(v))
  {
  }

  /** A save that fails on its part leaves every read as it was. */
  lemma FailedSaveChangesNoRead(versions: seq<Option<Part>>, version: Option<nat>)
    ensures Lookup(versions + [None], version) == Lookup(versions, version)
  {
    assert (versions + [None])[..|versions|] == versions;
  }
}
