/**
 * The Solr JSON record collection (VuFindSearch\Backend\Solr\Response\Json\RecordCollection):
 * a sparse map from result position to record object, a cursor `pointer`, and the
 * window `offset` the engine reported. The iterator protocol (rewind, next, valid,
 * current, key) and `first` are all relative to `offset`; `add` stores a record at the
 * cursor unless that very object is already stored, then advances the cursor.
 */
module SolrJson {
  import opened Wrappers

  /** A record as the collection holds it. It is a class, so two records with equal
      fields are still two different records to `add`. */
  class Record {
    const fields: map<string, string>

    constructor (fields: map<string, string>)
      ensures this.fields == fields
    {
      this.fields := fields;
    }
  }

  /** The `facet_counts` part of a response, handed unchanged to the Facets wrapper. */
  datatype FacetCounts = FacetCounts(fields: map<string, seq<(string, int)>>)

  /** The keys of a deserialized Solr response that the collection reads:
      responseHeader.QTime, response.start, response.numFound and facet_counts.
      None is a key that is not present. */
  datatype RawResponse = RawResponse(
    qTime: Option<int>,
    start: Option<int>,
    numFound: Option<int>,
    facetCounts: Option<FacetCounts>)

  /** The response after it is merged over the template; numFound has no default. */
  datatype MergedResponse = MergedResponse(
    qTime: int,
    start: int,
    numFound: Option<int>,
    facetCounts: FacetCounts)

  /** `array_replace_recursive($template, $response)` restricted to the keys read here:
      the template {responseHeader: {QTime: 0}, response: {start: 0}, facet_counts: []}
      supplies a value only where the response has none, and the response's own values win. */
  function MergeTemplate(raw: RawResponse): (m: MergedResponse)
    ensures m.qTime == (if raw.qTime.Some? then raw.qTime.value else 0)
    ensures m.start == (if raw.start.Some? then raw.start.value else 0)
    ensures m.numFound == raw.numFound
    ensures m.facetCounts == (if raw.facetCounts.Some? then raw.facetCounts.value else FacetCounts(map[]))
  {
    MergedResponse(
      raw.qTime.GetOr(0),
      raw.start.GetOr(0),
      raw.numFound,
      raw.facetCounts.GetOr(FacetCounts(map[])))
  }

  /** Merging an already complete response over the template changes nothing. */
  lemma MergeKeepsGivenValues(q: int, s: int, n: Option<int>, f: FacetCounts)
    ensures MergeTemplate(RawResponse(Some(q), Some(s), n, Some(f))) == MergedResponse(q, s, n, f)
  {
  }

  /** The facet wrapper built from `facet_counts`; an object, so memoisation is visible
      as returning the same instance. */
  class Facets {
    const counts: FacetCounts

    constructor (counts: FacetCounts)
      ensures this.counts == counts
    {
      this.counts := counts;
    }
  }

  /** The integers lo .. hi-1. */
  function KeyRange(lo: int, hi: int): (r: set<int>)
    ensures forall k :: k in r <==> lo <= k < hi
    ensures |r| == if hi > lo then hi - lo else 0
    decreases hi - lo
  {
    if hi <= lo then {} else KeyRange(lo, hi - 1) + {hi - 1}
  }

  /** The records a PHP `foreach` over the collection yields when it starts at position
      `from`: the record at `from`, at `from + 1`, ... up to the first unpopulated position. */
  function Visit(records: map<int, Record>, from: int): seq<Record>
    decreases |records|
  {
    if from in records then [records[from]] + Visit(records - {from}, from + 1) else []
  }

  /** Removing a position before `from` does not change what is visited from `from`. */
  lemma {:induction false} VisitIgnoresEarlier(records: map<int, Record>, from: int, k: int)
    requires k < from
    ensures Visit(records - {k}, from) == Visit(records, from)
    decreases |records|
  {
    if from in records {
      assert (records - {k}) - {from} == (records - {from}) - {k};
      VisitIgnoresEarlier(records - {from}, from + 1, k);
    }
  }

  /** Extending a range at its top by one position. */
  lemma KeyRangeGrow(lo: int, hi: int)
    requires lo <= hi
    ensures KeyRange(lo, hi + 1) == KeyRange(lo, hi) + {hi}
  {
  }

  /** Storing at a free position adds one entry. */
  lemma StoreFree(records: map<int, Record>, p: int, r: Record)
    requires p !in records
    ensures |records[p := r]| == |records| + 1
  {
  }

  /** Storing just past a window lo .. p-1 gives the window lo .. p. */
  lemma StoreAtEnd(records: map<int, Record>, lo: int, p: int, r: Record)
    requires lo <= p && records.Keys == KeyRange(lo, p)
    ensures p !in records
    ensures records[p := r].Keys == KeyRange(lo, p + 1)
  {
    KeyRangeGrow(lo, p);
  }

  /** When the populated positions are exactly lo .. lo+n-1, iteration from lo visits all n
      records in position order. */
  lemma VisitContiguous(records: map<int, Record>, lo: int, n: nat)
    requires records.Keys == KeyRange(lo, lo + n)
    ensures |Visit(records, lo)| == n
    ensures forall i :: 0 <= i < n ==> Visit(records, lo)[i] == records[lo + i]
  {
    VisitWindow(records, lo, n);
  }

  /** VisitContiguous, with the window given by membership. */
  lemma {:induction false} VisitWindow(records: map<int, Record>, lo: int, n: nat)
    requires forall k :: k in records <==> lo <= k < lo + n
    ensures |Visit(records, lo)| == n
    ensures forall i :: 0 <= i < n ==> Visit(records, lo)[i] == records[lo + i]
    decreases n
  {
    if n > 0 {
      var rest := records - {lo};
      VisitWindow(rest, lo + 1, n - 1);
      VisitStep(records, lo, Visit(rest, lo + 1), n);
    }
  }

  /** One step of VisitWindow: prepending the lowest record. */
  lemma VisitStep(records: map<int, Record>, lo: int, tail: seq<Record>, n: nat)
    requires n > 0 && forall k :: k in records <==> lo <= k < lo + n
    requires tail == Visit(records - {lo}, lo + 1) && |tail| == n - 1
    requires forall i :: 0 <= i < n - 1 ==> tail[i] == (records - {lo})[lo + 1 + i]
    ensures |Visit(records, lo)| == n
    ensures forall i :: 0 <= i < n ==> Visit(records, lo)[i] == records[lo + i]
  {
    var v := Visit(records, lo);
    assert v == [records[lo]] + tail;
    forall i | 0 < i < n
      ensures v[i] == records[lo + i]
    {
      assert v[i] == tail[i - 1];
    }
  }

  /** No record object is stored at two positions. */
  ghost predicate Injective(records: map<int, Record>) {
    forall i, j :: i in records && j in records && records[i] == records[j] ==> i == j
  }

  /** Storing a record object that is not stored yet keeps positions and objects one-to-one. */
  lemma InjectiveStore(records: map<int, Record>, p: int, r: Record)
    requires Injective(records) && r !in records.Values
    ensures Injective(records[p := r])
  {
    var m := records[p := r];
    forall i, j | i in m && j in m && m[i] == m[j]
      ensures i == j
    {
      if i != p && j != p {
        assert records[i] == records[j];
      }
    }
  }

  class RecordCollection {
    /** The response merged over the template. */
    const response: MergedResponse
    /** The window start, read from the unmerged response. */
    const offset: int
    var records: map<int, Record>
    var pointer: int
    /** The memoised facets; null until `getFacets` is first called. */
    var facets: Facets?

    /** The collection invariant: no record object is stored at two positions, and memoised
        facets wrap the response's facet counts. */
    ghost predicate Inv()
      reads this
    {
      Injective(records) &&
      (facets != null ==> facets.counts == response.facetCounts)
    }

    /** The populated positions are exactly offset .. pointer-1, as after construction and
        any number of adds of new records. */
    ghost predicate Contiguous()
      reads this
    {
      offset <= pointer && records.Keys == KeyRange(offset, pointer)
    }

    /** `__construct($response)`: the response is merged over the template, the offset is
        taken from the raw response's `response.start`, the records are empty and the
        cursor is rewound. */
    constructor (raw: RawResponse)
      requires raw.start.Some?
      ensures response == MergeTemplate(raw) && offset == raw.start.value
      ensures records == map[] && Count() == 0 && Key() == raw.start.value && facets == null
      ensures GetTotal() == raw.numFound
      ensures GetQueryTime() == raw.qTime.GetOr(0) && GetOffset() == offset
      ensures Inv() && Contiguous()
    {
      response := MergeTemplate(raw);
      offset := raw.start.value;
      records := map[];
      pointer := raw.start.value;
      facets := null;
    }

    /** `getTotal`: the engine's numFound (null when absent: the template has no default
        for it), whatever `count()` is. */
    function GetTotal(): (total: Option<int>)
      reads this
      ensures forall raw :: response == MergeTemplate(raw) ==> total == raw.numFound
    {
      response.numFound
    }

    /** `getQueryTime`: responseHeader.QTime, 0 by the template when absent. */
    function GetQueryTime(): (time: int)
      reads this
      ensures forall raw :: response == MergeTemplate(raw) ==> time == raw.qTime.GetOr(0)
    {
      response.qTime
    }

    /** `getOffset`: response.start of the merged response, which is the window start the
        constructor took from the unmerged one. */
    function GetOffset(): (start: int)
      reads this
      ensures forall raw :: response == MergeTemplate(raw) && raw.start.Some? ==> start == raw.start.value
    {
      response.start
    }

    /** `count`: the number of populated positions; after construction and adds, the
        distance the cursor has moved from the window start. */
    function Count(): (n: nat)
      reads this
      ensures Contiguous() ==> n == pointer - offset
    {
      |records|
    }

    /** `key`: the cursor position; after construction and adds, the position just past
        the last record. */
    function Key(): (k: int)
      reads this
      ensures Contiguous() ==> k == offset + Count()
    {
      pointer
    }

    /** PHP's iterator `valid()`: a record is stored at the cursor. After construction and
        adds the cursor is past the last record, so it is false until `rewind`. */
    predicate CursorValid()
      reads this
      ensures Contiguous() ==> !CursorValid()
    {
      pointer in records
    }

    /** `current`: the record at the cursor; callers check `valid()` first. */
    function Current(): (r: Record)
      reads this
      requires CursorValid()
      ensures r in records.Values
    {
      records[pointer]
    }

    /** `first`: the record at the window start, or null; when `offset` is unpopulated this
        is null even if other positions hold records. */
    function First(): (r: Option<Record>)
      reads this
      ensures r.None? <==> offset !in records
      ensures r.Some? ==> r.value == records[offset]
    {
      if offset in records then Some(records[offset]) else None
    }

    /** `add`: a record object not stored yet goes to the cursor position and the cursor
        moves on by one; a record object already stored changes nothing. */
    method Add(record: Record)
      requires Inv()
      modifies this`records, this`pointer
      ensures Inv()
      ensures old(record in records.Values) ==> records == old(records) && pointer == old(pointer)
      ensures old(record !in records.Values) ==>
                records == old(records)[old(pointer) := record] && pointer == old(pointer) + 1
      ensures old(record !in records.Values && pointer !in records) ==> Count() == old(Count()) + 1
      ensures old(Contiguous()) ==> Contiguous()
      ensures old(Contiguous()) && old(record !in records.Values) ==> Count() == old(Count()) + 1
    {
      if record !in records.Values {
        InjectiveStore(records, pointer, record);
        if pointer !in records {
          StoreFree(records, pointer, record);
        }
        if Contiguous() {
          StoreAtEnd(records, offset, pointer, record);
        }
        records := records[pointer := record];
        Next();
      }
    }

    /** `rewind`: the cursor goes back to the window start. */
    method Rewind()
      modifies this`pointer
      ensures pointer == offset
    {
      pointer := offset;
    }

    /** `next`: the cursor moves on by one, whether or not a record is stored there. */
    method Next()
      modifies this`pointer
      ensures pointer == old(pointer) + 1
    {
      pointer := pointer + 1;
    }

    /** `getFacets`: the first call builds the Facets object from facet_counts; every later
        call returns that same object. */
    method GetFacets() returns (f: Facets)
      requires Inv()
      modifies this`facets
      ensures Inv()
      ensures old(facets) != null ==> f == old(facets)
      ensures old(facets) == null ==> fresh(f)
      ensures facets == f && f.counts == response.facetCounts
    {
      if facets == null {
        facets := new Facets(response.facetCounts);
      }
      f := facets;
    }

    /** What `foreach ($collection as $record)` yields: rewind, then current/next while
        valid. The records are left as they were. */
    method ForeachRecords() returns (visited: seq<Record>)
      modifies this`pointer
      ensures visited == Visit(records, offset)
      ensures !CursorValid()
    {
      Rewind();
      visited := [];
      while CursorValid()
        invariant visited + Visit(records, pointer) == Visit(records, offset)
        decreases |Visit(records, pointer)|
      {
        VisitIgnoresEarlier(records - {pointer}, pointer + 1, pointer);
        assert records - {pointer} - {pointer} == records - {pointer};
        VisitIgnoresEarlier(records, pointer + 1, pointer);
        visited := visited + [Current()];
        Next();
      }
    }
  }

  /** A client of the specifications above: a window starting at 10, two distinct records
      (one added twice), then a full iteration. */
  method CollectionExample(a: Record, b: Record)
    requires a != b
  {
    var c := new RecordCollection(RawResponse(None, Some(10), Some(57), None));
    assert c.GetQueryTime() == 0 && c.GetTotal() == Some(57);
    c.Add(a);
    c.Add(a);
    c.Add(b);
    assert c.records == map[10 := a, 11 := b] && c.Count() == 2;
    assert c.First() == Some(a);
    VisitContiguous(c.records, 10, 2);
    var all := c.ForeachRecords();
    assert all == [a, b];
  }
}
