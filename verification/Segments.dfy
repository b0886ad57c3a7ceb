/** Segment records: key-ordered maps of events under the record size limit. */
module Segments {
  import opened Text
  import opened EventKeys
  import opened Options

  /** What is stored of an event; `size` is what it costs in a record. */
  datatype Event = Event(id: string, micros: nat, body: string, size: nat)

  /** An event under the time its append keyed it by. */
  datatype Entry = Entry(at: nat, event: Event) {
    function Key(): string {
      EventMapKey(at, event.id)
    }
  }

  /** The entries of a segment in key order. */
  type Segment = seq<Entry>

  ghost predicate Sorted(seg: Segment) {
    forall i, j :: 0 <= i < j < |seg| ==> Less(seg[i].Key(), seg[j].Key())
  }

  predicate HasKey(seg: Segment, key: string) {
    exists i :: 0 <= i < |seg| && seg[i].Key() == key
  }

  /** All keys come before `key`. */
  ghost predicate AllBefore(seg: Segment, key: string) {
    forall i :: 0 <= i < |seg| ==> Less(seg[i].Key(), key)
  }

  /** `map_put` on a key-ordered map: overwrite the slot, or insert it in order. */
  function MapPut(seg: Segment, e: Entry): Segment {
    if seg == [] then [e]
    else if seg[0].Key() == e.Key() then [e] + seg[1..]
    else if Less(e.Key(), seg[0].Key()) then [e] + seg
    else [seg[0]] + MapPut(seg[1..], e)
  }

  function Bytes(seg: Segment): nat {
    if seg == [] then 0 else seg[0].event.size + Bytes(seg[1..])
  }

  /** The server accepts a put iff the record it leaves is within the limit. */
  predicate Accepts(cap: nat, seg: Segment, e: Entry) {
    Bytes(MapPut(seg, e)) <= cap
  }

  lemma {:induction false} PutHas(seg: Segment, e: Entry, x: Entry)
    ensures x in MapPut(seg, e) ==> x == e || x in seg
    ensures e in MapPut(seg, e)
  {
    if seg != [] {
      PutHas(seg[1..], e, x);
    }
  }

  lemma {:induction false} PutKeepsOrder(seg: Segment, e: Entry)
    requires Sorted(seg)
    ensures Sorted(MapPut(seg, e))
  {
    if seg == [] || seg[0].Key() == e.Key() {
    } else if Less(e.Key(), seg[0].Key()) {
      forall j | 0 <= j < |seg| ensures Less(e.Key(), seg[j].Key()) {
        if j > 0 {
          LessTransitive(e.Key(), seg[0].Key(), seg[j].Key());
        }
      }
    } else {
      PutKeepsOrder(seg[1..], e);
      LessTotal(e.Key(), seg[0].Key());
      var rest := MapPut(seg[1..], e);
      forall j | 0 <= j < |rest| ensures Less(seg[0].Key(), rest[j].Key()) {
        PutHas(seg[1..], e, rest[j]);
      }
    }
  }

  /** A put of a new last key appends. */
  lemma {:induction false} PutAppends(seg: Segment, e: Entry)
    requires AllBefore(seg, e.Key())
    ensures MapPut(seg, e) == seg + [e]
  {
    if seg != [] {
      LessAsymmetric(seg[0].Key(), e.Key());
      PutAppends(seg[1..], e);
    }
  }

  /** A put of a new key adds exactly that entry. */
  lemma {:induction false} PutAdds(seg: Segment, e: Entry)
    requires !HasKey(seg, e.Key())
    ensures multiset(MapPut(seg, e)) == multiset(seg) + multiset{e}
  {
    if seg != [] {
      assert seg[0].Key() != e.Key();
      assert seg == [seg[0]] + seg[1..];
      if !Less(e.Key(), seg[0].Key()) {
        assert forall i :: 0 <= i < |seg[1..]| ==> seg[1..][i] == seg[i + 1];
        PutAdds(seg[1..], e);
      }
    }
  }

  /** A repeated put changes nothing: this is what makes retries safe. */
  lemma {:induction false} PutIsIdempotent(seg: Segment, e: Entry)
    ensures MapPut(MapPut(seg, e), e) == MapPut(seg, e)
  {
    if seg != [] && seg[0].Key() != e.Key() && !Less(e.Key(), seg[0].Key()) {
      PutIsIdempotent(seg[1..], e);
      assert MapPut(seg, e)[1..] == MapPut(seg[1..], e);
    }
  }

  /** A put changes nothing exactly when its entry is there. */
  lemma {:induction false} PutUnchangedIff(seg: Segment, e: Entry)
    requires Sorted(seg)
    ensures MapPut(seg, e) == seg <==> e in seg
  {
    if seg != [] {
      LessIrreflexive(e.Key());
      assert seg == [seg[0]] + seg[1..];
      if seg[0].Key() != e.Key() && !Less(e.Key(), seg[0].Key()) {
        PutUnchangedIff(seg[1..], e);
        assert MapPut(seg, e)[1..] == MapPut(seg[1..], e);
      } else {
        PutBeforeRest(seg, e);
      }
    }
  }

  /** An entry that goes first is not among the rest. */
  lemma PutBeforeRest(seg: Segment, e: Entry)
    requires Sorted(seg) && seg != [] && (seg[0].Key() == e.Key() || Less(e.Key(), seg[0].Key()))
    ensures e !in seg[1..] && (Less(e.Key(), seg[0].Key()) ==> e !in seg)
  {
    LessIrreflexive(e.Key());
    forall j | 1 <= j < |seg| ensures seg[j] != e {
      if Less(e.Key(), seg[0].Key()) {
        LessAsymmetric(e.Key(), seg[0].Key());
      }
      assert Less(seg[0].Key(), seg[j].Key());
    }
    if Less(e.Key(), seg[0].Key()) {
      assert seg[0] != e;
    }
  }

  lemma {:induction false} PutCosts(seg: Segment, e: Entry)
    ensures e.event.size <= Bytes(MapPut(seg, e))
  {
    if seg != [] && seg[0].Key() != e.Key() && !Less(e.Key(), seg[0].Key()) {
      PutCosts(seg[1..], e);
      assert MapPut(seg, e)[1..] == MapPut(seg[1..], e);
    }
  }

  lemma EmptySegmentAccepts(cap: nat, e: Entry)
    ensures Accepts(cap, [], e) <==> e.event.size <= cap
  {
    var seg := MapPut([], e);
    assert seg == [e] && Bytes(seg) == e.event.size + Bytes(seg[1..]);
  }

  // ---- reads ------------------------------------------------------------------------

  /** `map_get_by_index_range(-n, n)`. */
  function LastN(seg: Segment, n: nat): Segment {
    if |seg| <= n then seg else seg[|seg| - n..]
  }

  /** The last n, or all when no number is asked for. */
  function TakeLast(n: Option<nat>, seg: Segment): Segment {
    if n.Some? then LastN(seg, n.value) else seg
  }

  /** `map_get_by_key_range(cutoff, ":")`, or everything without a cutoff. */
  function Matching(seg: Segment, after: Option<nat>): Segment {
    if seg == [] then []
    else if after.None? || InRange(CutoffKey(after.value), seg[0].Key()) then [seg[0]] + Matching(seg[1..], after)
    else Matching(seg[1..], after)
  }

  /** One server-side read: by key range when there is a cutoff, else by index range. */
  function ReadRange(seg: Segment, wantLast: Option<nat>, after: Option<nat>): Segment {
    if after.Some? then Matching(seg, after) else TakeLast(wantLast, seg)
  }

  lemma {:induction false} MatchingSplits(a: Segment, b: Segment, after: Option<nat>)
    ensures Matching(a + b, after) == Matching(a, after) + Matching(b, after)
  {
    if a == [] {
      assert a + b == b;
    } else {
      assert (a + b)[1..] == a[1..] + b;
      MatchingSplits(a[1..], b, after);
    }
  }

  lemma {:induction false} MatchingAll(seg: Segment)
    ensures Matching(seg, None) == seg
  {
    if seg != [] {
      MatchingAll(seg[1..]);
    }
  }

  lemma {:induction false} NothingMatches(seg: Segment, after: Option<nat>)
    ensures Matching(seg, after) == []
            <==> forall i :: 0 <= i < |seg| ==> after.Some? && !InRange(CutoffKey(after.value), seg[i].Key())
  {
    if seg != [] {
      NothingMatches(seg[1..], after);
      assert seg == [seg[0]] + seg[1..];
    }
  }

  /** Every event key lies below the end sentinel of a range. */
  lemma KeysEndBeforeSentinel(e: Entry)
    ensures Less(e.Key(), KEY_RANGE_END)
  {
    assert e.Key()[0] == Padded(e.at, TS_DIGITS)[0];
  }
}
