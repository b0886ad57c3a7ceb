/** Search over the posting lists against a scan of all rows of the user. */
module MemorySearch {
  import opened MemoryIndex
  import opened MemoryAgreement

  const MAX_SEARCH_CANDIDATES: nat := 512

  datatype Hit = Hit(overlap: nat, ts: nat, id: RowId, row: Row)

  function TokensIn(keywords: seq<string>): set<string> {
    set t | t in keywords
  }

  function Overlap(keywords: seq<string>, query: seq<string>): nat {
    |TokensIn(keywords) * TokensIn(query)|
  }

  /** The score counts: each new keyword that the query has raises it by one, and nothing else does. */
  lemma OverlapCounts(keywords: seq<string>, t: string, query: seq<string>)
    ensures Overlap([], query) == 0
    ensures Overlap(keywords + [t], query) == Overlap(keywords, query) + if t in query && t !in keywords then 1 else 0
  {
    assert TokensIn([]) * TokensIn(query) == {};
    var less, more := TokensIn(keywords) * TokensIn(query), TokensIn(keywords + [t]) * TokensIn(query);
    assert more == less + if t in query then {t} else {};
  }

  /** Rows that share more of the query's tokens score higher. */
  lemma MoreSharedScoresHigher(a: seq<string>, b: seq<string>, query: seq<string>, t: string)
    requires forall u :: u in a && u in query ==> u in b
    requires t in b && t in query && t !in a
    ensures Overlap(a, query) < Overlap(b, query)
  {
    var x, y := TokensIn(a) * TokensIn(query), TokensIn(b) * TokensIn(query);
    assert x <= y - {t};
    SubsetSize(x, y - {t});
  }

  // ---- the full scan -----------------------------------------------------------------------------

  predicate Meets(ix: Index, app: string, user: string, query: seq<string>, id: RowId) {
    id in ix.rows && id.app == app && id.user == user && Overlap(ix.rows[id].keywords, query) > 0
  }

  /** The rows of the user whose keyword set meets the query. */
  function Matches(ix: Index, app: string, user: string, query: seq<string>): set<RowId> {
    set id | id in ix.rows && Meets(ix, app, user, query, id)
  }

  function HitOf(ix: Index, query: seq<string>, id: RowId): Hit
    requires id in ix.rows
  {
    Hit(Overlap(ix.rows[id].keywords, query), ix.rows[id].ts, id, ix.rows[id])
  }

  /** Sort key (overlap, timestamp), descending. */
  predicate Before(a: Hit, b: Hit) {
    a.overlap > b.overlap || (a.overlap == b.overlap && a.ts >= b.ts)
  }

  predicate Sorted(hits: seq<Hit>) {
    forall i, j :: 0 <= i < j < |hits| ==> Before(hits[i], hits[j])
  }

  /** The k best of all matching rows, best first. */
  ghost predicate TopK(ix: Index, app: string, user: string, query: seq<string>, hits: seq<Hit>, k: nat) {
    var all := Matches(ix, app, user, query);
    && Sorted(hits)
    && (forall i :: 0 <= i < |hits| ==> hits[i].id in all && hits[i] == HitOf(ix, query, hits[i].id))
    && (forall i, j :: 0 <= i < j < |hits| ==> hits[i].id != hits[j].id)
    && |hits| == (if |all| <= k then |all| else k)
    && forall id :: id in all ==> (exists i :: 0 <= i < |hits| && hits[i].id == id) || forall i :: 0 <= i < |hits| ==> Before(hits[i], HitOf(ix, query, id))
  }

  // ---- the stable descending sort --------------------------------------------------------------

  function Insert(h: Hit, sorted: seq<Hit>): seq<Hit> {
    if sorted == [] then [h]
    else if Before(sorted[0], h) then [sorted[0]] + Insert(h, sorted[1..])
    else [h] + sorted
  }

  function Ranked(hits: seq<Hit>): seq<Hit> {
    if hits == [] then [] else Insert(hits[|hits| - 1], Ranked(hits[..|hits| - 1]))
  }

  /** The hits of one score, in their order. */
  function WithScore(hits: seq<Hit>, overlap: nat, ts: nat): seq<Hit> {
    if hits == [] then []
    else (if hits[0].overlap == overlap && hits[0].ts == ts then [hits[0]] else []) + WithScore(hits[1..], overlap, ts)
  }

  lemma {:induction false} InsertPermutes(h: Hit, sorted: seq<Hit>)
    ensures multiset(Insert(h, sorted)) == multiset(sorted) + multiset{h}
    ensures forall x :: x in Insert(h, sorted) ==> x == h || x in sorted
  {
    hide Before;
    if sorted != [] {
      assert sorted == [sorted[0]] + sorted[1..];
      InsertPermutes(h, sorted[1..]);
    }
  }

  lemma {:induction false} InsertSorts(h: Hit, sorted: seq<Hit>)
    requires Sorted(sorted)
    ensures Sorted(Insert(h, sorted))
  {
    if sorted == [] {
    } else if Before(sorted[0], h) {
      hide Before;
      InsertSorts(h, sorted[1..]);
      InsertPermutes(h, sorted[1..]);
      var rest := Insert(h, sorted[1..]);
      forall i | 0 <= i < |rest| ensures Before(sorted[0], rest[i]) {
        assert rest[i] in rest;
      }
    } else {
      PrependSorts(h, sorted);
    }
  }

  lemma PrependSorts(h: Hit, sorted: seq<Hit>)
    requires Sorted(sorted) && sorted != [] && !Before(sorted[0], h)
    ensures Sorted([h] + sorted)
  {
  }

  lemma {:induction false} InsertIsStable(h: Hit, sorted: seq<Hit>, overlap: nat, ts: nat)
    requires Sorted(sorted)
    ensures WithScore(Insert(h, sorted), overlap, ts) == WithScore(sorted + [h], overlap, ts)
  {
    if sorted == [] {
      assert sorted + [h] == [h];
    } else {
      assert (sorted + [h])[0] == sorted[0] && (sorted + [h])[1..] == sorted[1..] + [h];
      if Before(sorted[0], h) {
        InsertIsStable(h, sorted[1..], overlap, ts);
        assert Insert(h, sorted)[1..] == Insert(h, sorted[1..]);
      } else {
        assert Insert(h, sorted)[1..] == sorted;
        ScoresConcat(sorted, [h], overlap, ts);
        assert WithScore([h], overlap, ts) == if h.overlap == overlap && h.ts == ts then [h] else [];
        if h.overlap == overlap && h.ts == ts {
          NoneWithScore(sorted, h);
        }
      }
    }
  }

  lemma {:induction false} ScoresConcat(a: seq<Hit>, b: seq<Hit>, overlap: nat, ts: nat)
    ensures WithScore(a + b, overlap, ts) == WithScore(a, overlap, ts) + WithScore(b, overlap, ts)
  {
    if a == [] {
      assert a + b == b;
    } else {
      assert (a + b)[1..] == a[1..] + b;
      ScoresConcat(a[1..], b, overlap, ts);
    }
  }

  lemma {:induction false} NoneWithScore(sorted: seq<Hit>, h: Hit)
    requires forall i :: 0 <= i < |sorted| ==> !Before(sorted[i], h)
    ensures WithScore(sorted, h.overlap, h.ts) == []
  {
    if sorted != [] {
      NoneWithScore(sorted[1..], h);
    }
  }

  /** The sort returns a permutation in descending order that keeps hits of equal score in order. */
  lemma {:induction false} RankedMeaning(hits: seq<Hit>)
    ensures Sorted(Ranked(hits)) && multiset(Ranked(hits)) == multiset(hits)
    ensures forall overlap, ts :: WithScore(Ranked(hits), overlap, ts) == WithScore(hits, overlap, ts)
    decreases |hits|
  {
    if hits != [] {
      var n := |hits| - 1;
      var init, last := hits[..n], hits[n];
      RankedMeaning(init);
      assert hits == init + [last];
      InsertSorts(last, Ranked(init));
      InsertPermutes(last, Ranked(init));
      forall overlap, ts ensures WithScore(Ranked(hits), overlap, ts) == WithScore(hits, overlap, ts) {
        InsertIsStable(last, Ranked(init), overlap, ts);
        ScoresConcat(Ranked(init), [last], overlap, ts);
        ScoresConcat(init, [last], overlap, ts);
      }
    }
  }

  // ---- candidates ----------------------------------------------------------------------------------

  /** Candidates by event id, in insertion order: the session and the newest timestamp seen. */
  datatype Candidates = Candidates(order: seq<string>, found: map<string, (string, nat)>)

  predicate Usable(ref: Ref) {
    ref.event != "" && ref.session != ""
  }

  predicate ListedUnder(ix: Index, app: string, user: string, tokens: seq<string>, ref: Ref) {
    exists i :: 0 <= i < |tokens| && ref in Posts(ix, ListId(app, user, tokens[i]))
  }

  ghost predicate Tidy(c: Candidates) {
    && (forall i, j :: 0 <= i < j < |c.order| ==> c.order[i] != c.order[j])
    && (forall e :: e in c.order <==> e in c.found)
    && |c.order| <= MAX_SEARCH_CANDIDATES
  }

  /** Every candidate was read from a list of the query. */
  ghost predicate FromLists(ix: Index, app: string, user: string, tokens: seq<string>, c: Candidates) {
    forall e :: e in c.found ==> var ref := Ref(e, c.found[e].0, c.found[e].1); Usable(ref) && ListedUnder(ix, app, user, tokens, ref)
  }

  predicate Covers(c: Candidates, ref: Ref) {
    Usable(ref) ==> ref.event in c.found && c.found[ref.event].1 >= ref.ts
  }

  /** Unless the cap was reached, every usable ref of the query's lists is covered. */
  ghost predicate CoversLists(ix: Index, app: string, user: string, tokens: seq<string>, c: Candidates) {
    |c.order| < MAX_SEARCH_CANDIDATES ==> forall ref :: ListedUnder(ix, app, user, tokens, ref) ==> Covers(c, ref)
  }

  ghost predicate Gathered(ix: Index, app: string, user: string, tokens: seq<string>, c: Candidates) {
    Tidy(c) && FromLists(ix, app, user, tokens, c) && CoversLists(ix, app, user, tokens, c)
  }

  function IdOf(app: string, user: string, c: Candidates, e: string): RowId
    requires e in c.found
  {
    RowId(app, user, c.found[e].0, e)
  }

  /** Scores the first n candidates; a missing row or an empty overlap is passed over. */
  function ScoreAll(ix: Index, app: string, user: string, query: seq<string>, c: Candidates, n: nat): seq<Hit>
    requires n <= |c.order| && forall e :: e in c.order ==> e in c.found
  {
    if n == 0 then []
    else
      var id := IdOf(app, user, c, c.order[n - 1]);
      ScoreAll(ix, app, user, query, c, n - 1) +
      if id in ix.rows && Overlap(ix.rows[id].keywords, query) > 0
      then [Hit(Overlap(ix.rows[id].keywords, query), c.found[id.event].1, id, ix.rows[id])] else []
  }

  // ---- agreement with the scan ---------------------------------------------------------------------

  /** Each row is listed under each of its keywords, and listed refs point to rows. */
  ghost predicate Indexed(ix: Index) {
    && Sound(ix) && (forall id :: id in ix.rows ==> id.event != "")
    && forall id, t :: id in ix.rows && t in ix.rows[id].keywords ==> RefOf(id, ix.rows[id]) in Posts(ix, ListOf(id, t))
  }

  lemma AgreeIsIndexed(ix: Index)
    requires Agree(ix)
    ensures Indexed(ix)
  {
    AgreeIsSound(ix);
    forall id, t | id in ix.rows && t in ix.rows[id].keywords ensures RefOf(id, ix.rows[id]) in Posts(ix, ListOf(id, t)) {
      assert Points(ix, ListOf(id, t), RefOf(id, ix.rows[id]));
      assert Count(ix, ListOf(id, t), RefOf(id, ix.rows[id])) == 1;
    }
  }

  /** The rows of the user carry a session id, without which a ref is passed over. */
  predicate SessionsNamed(ix: Index, app: string, user: string) {
    forall id :: id in ix.rows && id.app == app && id.user == user ==> id.session != ""
  }

  /** No two matching rows share an event id, and there are no more of them than the cap. */
  predicate Findable(ix: Index, app: string, user: string, query: seq<string>) {
    var all := Matches(ix, app, user, query);
    && |all| <= 512
    && forall a, b :: a in all && b in all && a.event == b.event ==> a == b
  }

  lemma ListedIsMatch(ix: Index, app: string, user: string, tokens: seq<string>, ref: Ref)
    requires Sound(ix) && Names(ref) && ListedUnder(ix, app, user, tokens, ref)
    ensures var id := RowId(app, user, ref.session, ref.event); Meets(ix, app, user, tokens, id) && ix.rows[id].ts == ref.ts
  {
    var i :| 0 <= i < |tokens| && ref in Posts(ix, ListId(app, user, tokens[i]));
    var list := ListId(app, user, tokens[i]);
    assert Points(ix, list, ref);
    assert tokens[i] in TokensIn(ix.rows[RowOf(list, ref)].keywords) * TokensIn(tokens);
  }

  lemma MatchIsListed(ix: Index, app: string, user: string, tokens: seq<string>, id: RowId)
    requires Indexed(ix) && Meets(ix, app, user, tokens, id)
    ensures ListedUnder(ix, app, user, tokens, RefOf(id, ix.rows[id]))
  {
    var t :| t in TokensIn(ix.rows[id].keywords) * TokensIn(tokens);
    var i :| 0 <= i < |tokens| && tokens[i] == t;
    assert ListOf(id, tokens[i]) == ListId(app, user, tokens[i]);
  }

  /** Each candidate is a matching row, with the timestamp of the row. */
  ghost predicate CandidatesMatch(ix: Index, app: string, user: string, tokens: seq<string>, c: Candidates)
    requires Tidy(c)
  {
    forall i :: 0 <= i < |c.order| ==>
      var id := IdOf(app, user, c, c.order[i]);
      Meets(ix, app, user, tokens, id) && ix.rows[id].ts == c.found[c.order[i]].1
  }

  lemma GatheredMatch(ix: Index, app: string, user: string, tokens: seq<string>, c: Candidates)
    requires Sound(ix) && Gathered(ix, app, user, tokens, c)
    ensures CandidatesMatch(ix, app, user, tokens, c)
  {
    forall i | 0 <= i < |c.order|
      ensures var id := IdOf(app, user, c, c.order[i]);
              Meets(ix, app, user, tokens, id) && ix.rows[id].ts == c.found[c.order[i]].1
    {
      var e := c.order[i];
      ListedIsMatch(ix, app, user, tokens, Ref(e, c.found[e].0, c.found[e].1));
    }
  }

  function CandidateIds(app: string, user: string, c: Candidates, n: nat): set<RowId>
    requires n <= |c.order| && forall e :: e in c.order ==> e in c.found
  {
    set i | 0 <= i < n :: IdOf(app, user, c, c.order[i])
  }

  lemma {:induction false} CandidateIdsCount(app: string, user: string, c: Candidates, n: nat)
    requires Tidy(c) && n <= |c.order|
    ensures |CandidateIds(app, user, c, n)| == n
  {
    if n > 0 {
      CandidateIdsCount(app, user, c, n - 1);
      assert CandidateIds(app, user, c, n) == CandidateIds(app, user, c, n - 1) + {IdOf(app, user, c, c.order[n - 1])};
    }
  }

  lemma SubsetOfSameSize<T>(a: set<T>, b: set<T>)
    requires a <= b && |a| >= |b|
    ensures a == b
  {
    if x :| x in b && x !in a {
      assert |b - {x}| == |b| - 1;
      SubsetSize(a, b - {x});
    }
  }

  lemma {:induction false} SubsetSize<T>(a: set<T>, b: set<T>)
    requires a <= b
    ensures |a| <= |b|
  {
    if a != {} {
      var x :| x in a;
      SubsetSize(a - {x}, b - {x});
    }
  }

  /** Candidates cover every match that no other match shadows, unless the cap was reached. */
  lemma MatchesAreCandidates(ix: Index, app: string, user: string, tokens: seq<string>, c: Candidates)
    requires Indexed(ix) && SessionsNamed(ix, app, user) && Gathered(ix, app, user, tokens, c) && Findable(ix, app, user, tokens)
    ensures CandidateIds(app, user, c, |c.order|) == Matches(ix, app, user, tokens)
  {
    hide Overlap;
    GatheredMatch(ix, app, user, tokens, c);
    var ids, all := CandidateIds(app, user, c, |c.order|), Matches(ix, app, user, tokens);
    assert ids <= all;
    if |c.order| == MAX_SEARCH_CANDIDATES {
      CandidateIdsCount(app, user, c, |c.order|);
      SubsetOfSameSize(ids, all);
    } else {
      forall id | id in all ensures id in ids {
        MatchIsListed(ix, app, user, tokens, id);
        assert Covers(c, RefOf(id, ix.rows[id]));
        var i :| 0 <= i < |c.order| && c.order[i] == id.event;
        assert IdOf(app, user, c, c.order[i]) in all;
      }
    }
  }

  /**
   * The candidates are the matching rows if and only if no two of those share an event id and
   * there are at most as many as the cap.
   */
  lemma CandidatesAreMatchesIff(ix: Index, app: string, user: string, tokens: seq<string>, c: Candidates)
    requires Indexed(ix) && SessionsNamed(ix, app, user) && Gathered(ix, app, user, tokens, c)
    ensures CandidatesMatch(ix, app, user, tokens, c)
    ensures CandidateIds(app, user, c, |c.order|) == Matches(ix, app, user, tokens) <==> Findable(ix, app, user, tokens)
  {
    hide Meets, Gathered, Indexed, FromLists, CoversLists, SessionsNamed;
    IndexedIsSound(ix);
    GatheredMatch(ix, app, user, tokens, c);
    TidyOf(ix, app, user, tokens, c);
    var ids, all := CandidateIds(app, user, c, |c.order|), Matches(ix, app, user, tokens);
    if Findable(ix, app, user, tokens) {
      MatchesAreCandidates(ix, app, user, tokens, c);
    }
    if ids == all {
      CandidateIdsCount(app, user, c, |c.order|);
      forall a, b | a in all && b in all && a.event == b.event ensures a == b {
        var i :| 0 <= i < |c.order| && a == IdOf(app, user, c, c.order[i]);
        var j :| 0 <= j < |c.order| && b == IdOf(app, user, c, c.order[j]);
      }
    }
  }

  lemma IndexedIsSound(ix: Index)
    requires Indexed(ix)
    ensures Sound(ix)
  {
  }

  lemma TidyOf(ix: Index, app: string, user: string, tokens: seq<string>, c: Candidates)
    requires Gathered(ix, app, user, tokens, c)
    ensures Tidy(c)
  {
  }

  /** Scoring matching candidates keeps each of them. */
  lemma {:induction false} ScoresOfMatches(ix: Index, app: string, user: string, query: seq<string>, c: Candidates, n: nat)
    requires Tidy(c) && CandidatesMatch(ix, app, user, query, c) && n <= |c.order|
    ensures var hits := ScoreAll(ix, app, user, query, c, n);
            |hits| == n && forall i :: 0 <= i < n ==> hits[i] == HitOf(ix, query, IdOf(app, user, c, c.order[i]))
  {
    if n > 0 {
      ScoresOfMatches(ix, app, user, query, c, n - 1);
    }
  }

  lemma DistinctCounts(hits: seq<Hit>)
    requires forall i, j :: 0 <= i < j < |hits| ==> hits[i] != hits[j]
    ensures forall h :: multiset(hits)[h] <= 1
    decreases |hits|
  {
    if hits != [] {
      DistinctCounts(hits[1..]);
      assert hits == [hits[0]] + hits[1..];
      assert hits[0] !in hits[1..];
    }
  }

  lemma CountsDistinct(hits: seq<Hit>, i: nat, j: nat)
    requires i < j < |hits| && forall h :: multiset(hits)[h] <= 1
    ensures hits[i] != hits[j]
  {
    assert hits == hits[..j] + hits[j..];
    assert hits[i] in hits[..j] && hits[j] in hits[j..];
    assert multiset(hits)[hits[i]] == multiset(hits[..j])[hits[i]] + multiset(hits[j..])[hits[i]];
  }

  /** One hit per id, each as a scan would score it. */
  ghost predicate Exact(ix: Index, query: seq<string>, all: set<RowId>, hits: seq<Hit>) {
    && (forall i :: 0 <= i < |hits| ==> hits[i].id in all && hits[i].id in ix.rows && hits[i] == HitOf(ix, query, hits[i].id))
    && (forall i, j :: 0 <= i < j < |hits| ==> hits[i] != hits[j])
    && (forall id :: id in all ==> exists i :: 0 <= i < |hits| && hits[i].id == id)
    && |hits| == |all|
  }

  lemma ScoresAreExact(ix: Index, app: string, user: string, query: seq<string>, c: Candidates)
    requires Tidy(c) && CandidatesMatch(ix, app, user, query, c)
    ensures Exact(ix, query, CandidateIds(app, user, c, |c.order|), ScoreAll(ix, app, user, query, c, |c.order|))
  {
    hide Overlap;
    var n, all := |c.order|, CandidateIds(app, user, c, |c.order|);
    var hits := ScoreAll(ix, app, user, query, c, n);
    CandidateIdsCount(app, user, c, n);
    ScoresOfMatches(ix, app, user, query, c, n);
    forall id | id in all ensures exists i :: 0 <= i < |hits| && hits[i].id == id {
      var i :| 0 <= i < n && id == IdOf(app, user, c, c.order[i]);
      assert hits[i].id == id;
    }
  }

  lemma ExactPermutes(ix: Index, query: seq<string>, all: set<RowId>, hits: seq<Hit>, ranked: seq<Hit>)
    requires Exact(ix, query, all, hits) && multiset(ranked) == multiset(hits)
    ensures Exact(ix, query, all, ranked)
  {
    hide HitOf;
    DistinctCounts(hits);
    assert |ranked| == |multiset(ranked)| == |multiset(hits)| == |hits|;
    forall h ensures h in ranked <==> h in hits {
      assert h in multiset(ranked) <==> h in multiset(hits);
    }
    forall i | 0 <= i < |ranked| ensures ranked[i].id in all && ranked[i].id in ix.rows && ranked[i] == HitOf(ix, query, ranked[i].id) {
      assert ranked[i] in hits;
    }
    forall i, j | 0 <= i < j < |ranked| ensures ranked[i] != ranked[j] {
      CountsDistinct(ranked, i, j);
    }
    forall id | id in all ensures exists i :: 0 <= i < |ranked| && ranked[i].id == id {
      var i :| 0 <= i < |hits| && hits[i].id == id;
      assert hits[i] in ranked;
      var j :| 0 <= j < |ranked| && ranked[j] == hits[i];
    }
  }

  /** The first k of all hits in descending order. */
  lemma PrefixIsTop(ix: Index, app: string, user: string, query: seq<string>, ranked: seq<Hit>, k: nat)
    requires Sorted(ranked) && Exact(ix, query, Matches(ix, app, user, query), ranked)
    ensures TopK(ix, app, user, query, if |ranked| <= k then ranked else ranked[..k], k)
  {
    hide Overlap, Meets, Matches, HitOf, Before;
    var all := Matches(ix, app, user, query);
    var top := if |ranked| <= k then ranked else ranked[..k];
    assert forall i :: 0 <= i < |top| ==> top[i] == ranked[i];
    forall id | id in all ensures (exists i :: 0 <= i < |top| && top[i].id == id) || forall i :: 0 <= i < |top| ==> Before(top[i], HitOf(ix, query, id)) {
      var j :| 0 <= j < |ranked| && ranked[j].id == id;
      assert if j < |top| then top[j].id == id else forall i :: 0 <= i < |top| ==> Before(ranked[i], ranked[j]);
    }
  }

  /** Search equals the scan: the k best of exactly the matching rows, best first. */
  lemma SearchAgreesWithScan(ix: Index, app: string, user: string, query: seq<string>, c: Candidates, k: nat)
    requires Indexed(ix) && SessionsNamed(ix, app, user) && Gathered(ix, app, user, query, c) && Findable(ix, app, user, query)
    ensures var ranked := Ranked(ScoreAll(ix, app, user, query, c, |c.order|));
            TopK(ix, app, user, query, if |ranked| <= k then ranked else ranked[..k], k)
  {
    hide Indexed, Exact, CandidatesMatch, TopK, Findable, SessionsNamed;
    var hits := ScoreAll(ix, app, user, query, c, |c.order|);
    CandidatesAreMatchesIff(ix, app, user, query, c);
    ScoresAreExact(ix, app, user, query, c);
    RankedMeaning(hits);
    ExactPermutes(ix, query, Matches(ix, app, user, query), hits, Ranked(hits));
    PrefixIsTop(ix, app, user, query, Ranked(hits), k);
  }
}
