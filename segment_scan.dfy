/**
 * The parallel segment scan as the query-operator scenario checks it. The
 * index is a list of leaves (segments) laid out back to back in the global
 * doc-id space. The slice queue cuts the leaves into doc-id ranges; each task
 * takes some of the slices and emits, slice by slice, the matching docs of each
 * range as (segment, doc) pairs. How the queue is cut is not modelled: the
 * properties hold for every cut that partitions the leaves.
 */
module SegmentScan {
  import opened Wrappers
  import opened Sequences

  /** A leaf of the index: the global id of its first doc and its number of docs. */
  datatype Leaf = Leaf(docBase: int, maxDoc: nat)

  /** A query: does doc `doc` of leaf `leaf` match? */
  type Query = (int, int) -> bool

  /** One row of a scan page's doc block: the segment ordinal and the segment-local doc. */
  datatype DocRef = DocRef(segment: int, doc: int)

  /** A unit of scan work: docs minDoc (inclusive) to maxDoc (exclusive) of one leaf. */
  datatype Slice = Slice(leaf: int, minDoc: int, maxDoc: int)

  /** Leaves are contiguous in the global doc-id space, starting at 0. */
  ghost predicate ValidReader(leaves: seq<Leaf>) {
    && (|leaves| > 0 ==> leaves[0].docBase == 0)
    && forall i :: 0 <= i < |leaves| - 1 ==> leaves[i + 1].docBase == leaves[i].docBase + leaves[i].maxDoc
  }

  ghost predicate InLeaf(leaves: seq<Leaf>, x: DocRef) {
    0 <= x.segment < |leaves| && 0 <= x.doc < leaves[x.segment].maxDoc
  }

  predicate InSlice(s: Slice, x: DocRef) {
    x.segment == s.leaf && s.minDoc <= x.doc < s.maxDoc
  }

  /** `docBase + doc` for a row whose segment exists. */
  function GlobalId(leaves: seq<Leaf>, x: DocRef): int
    requires 0 <= x.segment < |leaves|
  {
    leaves[x.segment].docBase + x.doc
  }

  /** What one slice emits: its matching docs, in index order. */
  function ScanSlice(q: Query, s: Slice): (out: seq<DocRef>)
    ensures forall x :: x in out <==> InSlice(s, x) && q(x.segment, x.doc)
    ensures Distinct(out)
    decreases s.maxDoc - s.minDoc
  {
    if s.minDoc >= s.maxDoc then []
    else
      var last := DocRef(s.leaf, s.maxDoc - 1);
      ScanSlice(q, Slice(s.leaf, s.minDoc, s.maxDoc - 1)) + (if q(last.segment, last.doc) then [last] else [])
  }

  /** What a task emits for the slices it takes, in the order it takes them. */
  function ScanSlices(q: Query, slices: seq<Slice>): seq<DocRef>
  {
    if |slices| == 0 then [] else ScanSlice(q, slices[0]) + ScanSlices(q, slices[1..])
  }

  function FlattenTasks(tasks: seq<seq<Slice>>): seq<Slice>
  {
    if |tasks| == 0 then [] else tasks[0] + FlattenTasks(tasks[1..])
  }

  /** The output of all tasks, one after another (the consumer's set ignores interleaving). */
  function TasksOutput(q: Query, tasks: seq<seq<Slice>>): seq<DocRef>
  {
    if |tasks| == 0 then [] else ScanSlices(q, tasks[0]) + TasksOutput(q, tasks[1..])
  }

  ghost predicate Disjoint(a: Slice, b: Slice) {
    a.leaf != b.leaf || a.maxDoc <= b.minDoc || b.maxDoc <= a.minDoc
  }

  /**
   * The slices of one scan: each lies within its leaf, no two overlap, and
   * together they cover every doc of every leaf.
   */
  ghost predicate SlicesPartition(leaves: seq<Leaf>, slices: seq<Slice>) {
    && (forall k :: 0 <= k < |slices| ==>
          0 <= slices[k].leaf < |leaves| && 0 <= slices[k].minDoc && slices[k].maxDoc <= leaves[slices[k].leaf].maxDoc)
    && (forall j, k :: 0 <= j < k < |slices| ==> Disjoint(slices[j], slices[k]))
    && (forall x :: InLeaf(leaves, x) ==> exists k :: 0 <= k < |slices| && InSlice(slices[k], x))
  }

  /** The global ids of the matching docs of leaves before `leaf`, and of docs before `doc` in `leaf`. */
  ghost function Visited(leaves: seq<Leaf>, q: Query, leaf: int, doc: int): set<int>
    requires 0 <= leaf <= |leaves|
  {
    (set l, e | 0 <= l < leaf && 0 <= e < leaves[l].maxDoc && q(l, e) :: leaves[l].docBase + e)
    + (if leaf < |leaves|
       then set e | 0 <= e < doc && e < leaves[leaf].maxDoc && q(leaf, e) :: leaves[leaf].docBase + e
       else {})
  }

  /** The single-threaded search result: the global ids of all matching docs. */
  ghost function MatchingGlobalIds(leaves: seq<Leaf>, q: Query): set<int>
  {
    Visited(leaves, q, |leaves|, 0)
  }

  lemma {:induction false} DocBasesIncrease(leaves: seq<Leaf>, i: int, j: int)
    requires ValidReader(leaves) && 0 <= i < j < |leaves|
    ensures leaves[i].docBase + leaves[i].maxDoc <= leaves[j].docBase
    decreases j - i
  {
    if i + 1 < j {
      DocBasesIncrease(leaves, i + 1, j);
    }
  }

  /** Distinct docs of a valid reader have distinct global ids. */
  lemma GlobalIdInjective(leaves: seq<Leaf>, x: DocRef, y: DocRef)
    requires ValidReader(leaves) && InLeaf(leaves, x) && InLeaf(leaves, y) && x != y
    ensures GlobalId(leaves, x) != GlobalId(leaves, y)
  {
    if x.segment < y.segment {
      DocBasesIncrease(leaves, x.segment, y.segment);
    } else if y.segment < x.segment {
      DocBasesIncrease(leaves, y.segment, x.segment);
    }
  }

  lemma {:induction false} ScanSlicesMembers(q: Query, slices: seq<Slice>)
    ensures forall x :: x in ScanSlices(q, slices) <==>
              q(x.segment, x.doc) && exists k :: 0 <= k < |slices| && InSlice(slices[k], x)
  {
    if |slices| > 0 {
      ScanSlicesMembers(q, slices[1..]);
      forall x: DocRef | q(x.segment, x.doc) && (exists k :: 0 <= k < |slices| && InSlice(slices[k], x))
        ensures x in ScanSlices(q, slices)
      {
        var k :| 0 <= k < |slices| && InSlice(slices[k], x);
        if k > 0 {
          assert InSlice(slices[1..][k - 1], x);
        }
      }
      forall x: DocRef | x in ScanSlices(q, slices[1..])
        ensures exists k :: 0 <= k < |slices| && InSlice(slices[k], x)
      {
        var k :| 0 <= k < |slices| - 1 && InSlice(slices[1..][k], x);
        assert InSlice(slices[k + 1], x);
      }
    }
  }

  /** Pairwise disjoint slices never emit the same doc twice. */
  lemma {:induction false} ScanSlicesDistinct(q: Query, slices: seq<Slice>)
    requires forall j, k :: 0 <= j < k < |slices| ==> Disjoint(slices[j], slices[k])
    ensures Distinct(ScanSlices(q, slices))
  {
    if |slices| > 0 {
      var rest := slices[1..];
      ScanSlicesDistinct(q, rest);
      ScanSlicesMembers(q, rest);
      assert forall x :: x in ScanSlice(q, slices[0]) ==> x !in ScanSlices(q, rest);
      DistinctConcat(ScanSlice(q, slices[0]), ScanSlices(q, rest));
    }
  }

  lemma {:induction false} ScanSlicesAppend(q: Query, a: seq<Slice>, b: seq<Slice>)
    ensures ScanSlices(q, a + b) == ScanSlices(q, a) + ScanSlices(q, b)
  {
    if |a| > 0 {
      assert (a + b)[1..] == a[1..] + b;
      ScanSlicesAppend(q, a[1..], b);
    } else {
      assert a + b == b;
    }
  }

  /** Running the tasks one after another emits what scanning all their slices emits. */
  lemma {:induction false} TasksOutputIsScan(q: Query, tasks: seq<seq<Slice>>)
    ensures TasksOutput(q, tasks) == ScanSlices(q, FlattenTasks(tasks))
  {
    if |tasks| > 0 {
      TasksOutputIsScan(q, tasks[1..]);
      ScanSlicesAppend(q, tasks[0], FlattenTasks(tasks[1..]));
    }
  }

  /** All rows of `refs` name an existing segment and no two give the same global id. */
  ghost predicate DistinctGlobalIds(leaves: seq<Leaf>, refs: seq<DocRef>) {
    && (forall k :: 0 <= k < |refs| ==> 0 <= refs[k].segment < |leaves|)
    && (forall j, k :: 0 <= j < k < |refs| ==> GlobalId(leaves, refs[j]) != GlobalId(leaves, refs[k]))
  }

  ghost function GlobalIdSet(leaves: seq<Leaf>, refs: seq<DocRef>): set<int>
    requires forall k :: 0 <= k < |refs| ==> 0 <= refs[k].segment < |leaves|
  {
    set k | 0 <= k < |refs| :: GlobalId(leaves, refs[k])
  }

  /** Every row a partition's scan emits is a matching doc of an existing leaf. */
  lemma ScanRowsInLeaves(leaves: seq<Leaf>, q: Query, slices: seq<Slice>)
    requires SlicesPartition(leaves, slices)
    ensures forall x :: x in ScanSlices(q, slices) <==> InLeaf(leaves, x) && q(x.segment, x.doc)
  {
    ScanSlicesMembers(q, slices);
    forall x | x in ScanSlices(q, slices)
      ensures InLeaf(leaves, x)
    {
      var k :| 0 <= k < |slices| && InSlice(slices[k], x);
    }
  }

  /** Distinct rows of existing docs give distinct global ids on a valid reader. */
  lemma DistinctRowsDistinctIds(leaves: seq<Leaf>, refs: seq<DocRef>)
    requires ValidReader(leaves) && Distinct(refs)
    requires forall x :: x in refs ==> InLeaf(leaves, x)
    ensures DistinctGlobalIds(leaves, refs)
  {
    forall k | 0 <= k < |refs|
      ensures 0 <= refs[k].segment < |leaves|
    {
      assert refs[k] in refs;
    }
    forall j, k | 0 <= j < k < |refs|
      ensures GlobalId(leaves, refs[j]) != GlobalId(leaves, refs[k])
    {
      assert refs[j] in refs && refs[k] in refs;
      GlobalIdInjective(leaves, refs[j], refs[k]);
    }
  }

  /** The global ids of exactly the matching docs are the single-threaded search result. */
  lemma MatchingRowsGiveSearchResult(leaves: seq<Leaf>, q: Query, refs: seq<DocRef>)
    requires forall x :: x in refs <==> InLeaf(leaves, x) && q(x.segment, x.doc)
    ensures forall k :: 0 <= k < |refs| ==> 0 <= refs[k].segment < |leaves|
    ensures GlobalIdSet(leaves, refs) == MatchingGlobalIds(leaves, q)
  {
    forall k | 0 <= k < |refs|
      ensures 0 <= refs[k].segment < |leaves|
    {
      assert refs[k] in refs;
    }
    forall id | id in MatchingGlobalIds(leaves, q)
      ensures id in GlobalIdSet(leaves, refs)
    {
      var l, e :| 0 <= l < |leaves| && 0 <= e < leaves[l].maxDoc && q(l, e) && id == leaves[l].docBase + e;
      var x := DocRef(l, e);
      assert InLeaf(leaves, x);
      var k :| 0 <= k < |refs| && refs[k] == x;
      assert GlobalId(leaves, refs[k]) == id;
    }
    forall id | id in GlobalIdSet(leaves, refs)
      ensures id in MatchingGlobalIds(leaves, q)
    {
      var k :| 0 <= k < |refs| && GlobalId(leaves, refs[k]) == id;
      assert refs[k] in refs;
      var l, e := refs[k].segment, refs[k].doc;
      assert 0 <= l < |leaves| && 0 <= e < leaves[l].maxDoc && q(l, e);
    }
  }

  /**
   * Across all tasks of the parallel scan no global doc id is emitted twice,
   * and together they emit exactly the docs the single-threaded search finds.
   */
  lemma ParallelScanMatchesSearch(leaves: seq<Leaf>, q: Query, tasks: seq<seq<Slice>>)
    requires ValidReader(leaves) && SlicesPartition(leaves, FlattenTasks(tasks))
    ensures DistinctGlobalIds(leaves, TasksOutput(q, tasks))
    ensures GlobalIdSet(leaves, TasksOutput(q, tasks)) == MatchingGlobalIds(leaves, q)
  {
    var slices := FlattenTasks(tasks);
    TasksOutputIsScan(q, tasks);
    ScanRowsInLeaves(leaves, q, slices);
    ScanSlicesDistinct(q, slices);
    DistinctRowsDistinctIds(leaves, TasksOutput(q, tasks));
    MatchingRowsGiveSearchResult(leaves, q, TasksOutput(q, tasks));
  }

  /** Failures of the consumer's `assertTrue(actualDocIds.add(docId))` and of a bad segment ordinal. */
  datatype CollectError = NoSuchSegment(segment: int) | DuplicatedDocId(docId: int)

  /**
   * The doc-id collector: for each emitted row, computes `docBase + doc` and
   * adds it to the set, failing on a segment that does not exist or on an id
   * that was already added.
   */
  method CollectDocIds(leaves: seq<Leaf>, emitted: seq<DocRef>) returns (r: Result<set<int>, CollectError>)
    ensures r.Success? <==> DistinctGlobalIds(leaves, emitted)
    ensures r.Success? ==> r.value == GlobalIdSet(leaves, emitted)
  {
    var ids: set<int> := {};
    var i := 0;
    while i < |emitted|
      invariant 0 <= i <= |emitted|
      invariant DistinctGlobalIds(leaves, emitted[..i])
      invariant ids == GlobalIdSet(leaves, emitted[..i])
    {
      var x := emitted[i];
      if !(0 <= x.segment < |leaves|) {
        return Failure(NoSuchSegment(x.segment));
      }
      var docId := leaves[x.segment].docBase + x.doc;
      if docId in ids {
        var j :| 0 <= j < i && GlobalId(leaves, emitted[..i][j]) == docId;
        assert GlobalId(leaves, emitted[j]) == GlobalId(leaves, emitted[i]);
        return Failure(DuplicatedDocId(docId));
      }
      assert emitted[..i + 1] == emitted[..i] + [x];
      ids := ids + {docId};
      i := i + 1;
    }
    assert emitted[..i] == emitted;
    return Success(ids);
  }

  /**
   * The single-threaded reference search: visits the leaves in order and each
   * leaf's matching docs in order, adding `docBase + doc` to the set. The
   * collector's own `assertTrue(docIds.add(docId))` never fails on a valid
   * reader, because the ids come in increasing order.
   */
  method SearchForDocIds(leaves: seq<Leaf>, q: Query) returns (docIds: set<int>)
    requires ValidReader(leaves)
    ensures docIds == MatchingGlobalIds(leaves, q)
  {
    docIds := {};
    var l := 0;
    while l < |leaves|
      invariant 0 <= l <= |leaves|
      invariant docIds == Visited(leaves, q, l, 0)
      invariant l < |leaves| ==> forall id :: id in docIds ==> id < leaves[l].docBase
    {
      var d := 0;
      while d < leaves[l].maxDoc
        invariant 0 <= d <= leaves[l].maxDoc
        invariant docIds == Visited(leaves, q, l, d)
        invariant forall id :: id in docIds ==> id < leaves[l].docBase + d
      {
        if q(l, d) {
          var docId := leaves[l].docBase + d;
          assert docId !in docIds;
          docIds := docIds + {docId};
        }
        VisitedNextDoc(leaves, q, l, d);
        d := d + 1;
      }
      VisitedNextLeaf(leaves, q, l);
      l := l + 1;
    }
  }

  lemma VisitedNextDoc(leaves: seq<Leaf>, q: Query, l: int, d: int)
    requires 0 <= l < |leaves| && 0 <= d < leaves[l].maxDoc
    ensures Visited(leaves, q, l, d + 1) ==
            Visited(leaves, q, l, d) + (if q(l, d) then {leaves[l].docBase + d} else {})
  {
  }

  lemma VisitedNextLeaf(leaves: seq<Leaf>, q: Query, l: int)
    requires 0 <= l < |leaves|
    ensures Visited(leaves, q, l + 1, 0) == Visited(leaves, q, l, leaves[l].maxDoc)
  {
  }

  /**
   * The query-operator scenario end to end: the collector over all tasks'
   * output never sees a duplicate, and its set equals the search result.
   */
  method CheckQueryOperator(leaves: seq<Leaf>, q: Query, tasks: seq<seq<Slice>>)
    returns (noDuplicates: bool, sameDocs: bool)
    requires ValidReader(leaves) && SlicesPartition(leaves, FlattenTasks(tasks))
    ensures noDuplicates && sameDocs
  {
    ParallelScanMatchesSearch(leaves, q, tasks);
    var actual := CollectDocIds(leaves, TasksOutput(q, tasks));
    var expected := SearchForDocIds(leaves, q);
    noDuplicates := actual.Success?;
    sameDocs := actual.Success? && actual.value == expected;
  }
}
