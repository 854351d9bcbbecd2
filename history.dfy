/** The optimisation history: the most recent answers first, at most fifty of
    them, which can be cleared or deleted one id at a time. */
module History {
  import opened Options
  import opened Domain
  import Seqs

  /** The number of entries kept. */
  const MaxEntries: nat := 50

  /** What a caller records: the request, the answer and the formulas chosen.
      The stored constraints of the application carry the optional number of
      days as one more, optional field; here it is the separate `num_days`
      beside the bounds, which holds the same information. */
  datatype Record = Record(
    constraints: Constraints,
    num_days: Option<real>,
    result: OptimizationResult,
    selectedFormulas: seq<string>)

  /** A recorded answer with its id and its time stamp. */
  datatype Entry = Entry(
    id: string,
    timestamp: int,
    constraints: Constraints,
    num_days: Option<real>,
    result: OptimizationResult,
    selectedFormulas: seq<string>)

  /** The entry a record becomes, stamped with `id` and `timestamp`. */
  function Stamp(r: Record, id: string, timestamp: int): (e: Entry)
    ensures e.id == id && e.timestamp == timestamp
    ensures e.constraints == r.constraints && e.num_days == r.num_days
    ensures e.result == r.result && e.selectedFormulas == r.selectedFormulas
  {
    Entry(id, timestamp, r.constraints, r.num_days, r.result, r.selectedFormulas)
  }

  function Min(a: nat, b: nat): nat {
    if a <= b then a else b
  }

  /** The history after adding `e`: `e` first, then the old entries, cut to the
      first fifty. */
  function Added(h: seq<Entry>, e: Entry): seq<Entry> {
    ([e] + h)[..Min(|h| + 1, MaxEntries)]
  }

  /** The history after deleting `id`: the entries with other ids, in order. */
  function Deleted(h: seq<Entry>, id: string): seq<Entry> {
    Seqs.Filter(h, (e: Entry) => e.id != id)
  }

  predicate HasId(h: seq<Entry>, id: string) {
    exists k :: 0 <= k < |h| && h[k].id == id
  }

  predicate DistinctIds(h: seq<Entry>) {
    forall i, j :: 0 <= i < j < |h| ==> h[i].id != h[j].id
  }

  /** Entries ordered most recent first. */
  predicate NewestFirst(h: seq<Entry>) {
    forall i, j :: 0 <= i < j < |h| ==> h[i].timestamp >= h[j].timestamp
  }

  // ---------------------------------------------------------------------------
  // Properties of the three updates

  /** After adding, the new entry comes first and the previous entries follow in
      their old order; the length grows by one up to fifty, and only the oldest
      entry is dropped when the history is full. */
  lemma AddedShape(h: seq<Entry>, e: Entry)
    ensures var r := Added(h, e);
            |r| == Min(|h| + 1, MaxEntries) && r[0] == e &&
            (forall k :: 1 <= k < |r| ==> r[k] == h[k - 1]) &&
            (|h| < MaxEntries ==> r[1..] == h) &&
            (|h| >= MaxEntries ==> r[1..] == h[..MaxEntries - 1])
  {
    var r := Added(h, e);
    forall k | 1 <= k < |r| ensures r[k] == h[k - 1] {
      assert r[k] == ([e] + h)[k];
    }
  }

  /** Adding an entry under a fresh id keeps the ids pairwise distinct. */
  lemma AddedDistinct(h: seq<Entry>, e: Entry)
    requires DistinctIds(h) && !HasId(h, e.id)
    ensures DistinctIds(Added(h, e))
  {
    var r := Added(h, e);
    AddedShape(h, e);
    forall i, j | 0 <= i < j < |r| ensures r[i].id != r[j].id {
      if i == 0 {
        assert r[j] == h[j - 1];
      } else {
        assert r[i] == h[i - 1] && r[j] == h[j - 1];
      }
    }
  }

  /** Adding an entry stamped no earlier than the newest keeps the history
      ordered most recent first. */
  lemma AddedNewestFirst(h: seq<Entry>, e: Entry)
    requires NewestFirst(h)
    requires |h| > 0 ==> e.timestamp >= h[0].timestamp
    ensures NewestFirst(Added(h, e))
  {
    var r := Added(h, e);
    AddedShape(h, e);
    forall i, j | 0 <= i < j < |r| ensures r[i].timestamp >= r[j].timestamp {
      if i == 0 {
        assert r[j] == h[j - 1];
      } else {
        assert r[i] == h[i - 1] && r[j] == h[j - 1];
      }
    }
  }

  /** Deleting removes every entry with that id and keeps every other entry, in
      order. */
  lemma DeletedShape(h: seq<Entry>, id: string)
    ensures !HasId(Deleted(h, id), id)
    ensures forall e :: e in Deleted(h, id) <==> e in h && e.id != id
    ensures Seqs.IsSubsequence(Deleted(h, id), h)
    ensures forall e: Entry :: e.id != id ==> multiset(Deleted(h, id))[e] == multiset(h)[e]
  {
    var r := Deleted(h, id);
    var gone := Seqs.Filter(h, (e: Entry) => e.id == id);
    Seqs.FilterPartition(h, (e: Entry) => e.id != id, (e: Entry) => e.id == id);
    forall e: Entry | e.id != id ensures multiset(gone)[e] == 0 {
      assert e !in gone;
    }
    forall e | e in h && e.id != id ensures e in r {
      var k :| 0 <= k < |h| && h[k] == e;
    }
  }

  /** Deleting an id that is not present leaves the history as it was. */
  lemma DeletedAbsent(h: seq<Entry>, id: string)
    requires !HasId(h, id)
    ensures Deleted(h, id) == h
  {
    Seqs.FilterAll(h, (e: Entry) => e.id != id);
  }

  /** Deleting keeps distinct ids distinct and a newest-first history ordered. */
  lemma DeletedKeepsInvariants(h: seq<Entry>, id: string)
    requires DistinctIds(h) && NewestFirst(h)
    ensures DistinctIds(Deleted(h, id)) && NewestFirst(Deleted(h, id))
  {
    SubsequenceKeepsOrder(Deleted(h, id), h);
  }

  /** A sub-sequence keeps every pairwise property of its elements in order. */
  lemma {:induction false} SubsequenceKeepsOrder(r: seq<Entry>, h: seq<Entry>)
    requires Seqs.IsSubsequence(r, h)
    requires DistinctIds(h) && NewestFirst(h)
    ensures DistinctIds(r) && NewestFirst(r)
    decreases |h|
  {
    if r != [] && h != [] {
      var hi := h[..|h| - 1];
      assert DistinctIds(hi) && NewestFirst(hi);
      if r[|r| - 1] == h[|h| - 1] && Seqs.IsSubsequence(r[..|r| - 1], hi) {
        var ri := r[..|r| - 1];
        SubsequenceKeepsOrder(ri, hi);
        Seqs.SubsequenceMembers(ri, hi);
        forall i, j | 0 <= i < j < |r|
          ensures r[i].id != r[j].id && r[i].timestamp >= r[j].timestamp
        {
          if j == |r| - 1 {
            assert r[i] == ri[i] && ri[i] in hi;
            var k :| 0 <= k < |hi| && hi[k] == ri[i];
            assert h[k] == r[i] && h[|h| - 1] == r[j];
          } else {
            assert r[i] == ri[i] && r[j] == ri[j];
          }
        }
      } else {
        SubsequenceKeepsOrder(r, hi);
      }
    }
  }

  // ---------------------------------------------------------------------------
  // The stored history

  /** The persisted history list, replaced wholesale by each update. */
  class HistoryStore {
    var entries: seq<Entry>

    /** An empty history. */
    constructor()
      ensures entries == []
    {
      entries := [];
    }

    /** Records `r` as the newest entry; `id` and `timestamp` are the fresh id
        and the clock reading the application draws for it. */
    method Add(r: Record, id: string, timestamp: int)
      modifies this
      ensures entries == Added(old(entries), Stamp(r, id, timestamp))
    {
      var newEntry := Entry(id, timestamp, r.constraints, r.num_days, r.result, r.selectedFormulas);
      var updated := [newEntry] + entries;
      entries := updated[..Min(|updated|, MaxEntries)];
    }

    /** Empties the history. */
    method Clear()
      modifies this
      ensures entries == []
    {
      entries := [];
    }

    /** Removes the entries recorded under `id`. */
    method Delete(id: string)
      modifies this
      ensures entries == Deleted(old(entries), id)
    {
      entries := Seqs.Filter(entries, (e: Entry) => e.id != id);
    }
  }
}
