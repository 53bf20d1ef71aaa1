/**
 * The two ordinal-grouping scenarios. Each document carries one keyword key.
 * The count scenario counts documents per key; the VALUES scenario collects,
 * per key, the set of long values indexed with it. In both, an INITIAL stage
 * emits partial rows and a FINAL hash aggregation merges them by key. How the
 * operators compute is not modelled: only the contract their rows must meet,
 * the reference computations, and the consumers that check them.
 */
module Grouping {
  import opened Wrappers
  import opened Sequences

  /** A keyword key: the bytes of a `BytesRef`. */
  type Key = seq<bv8>

  /** A long doc value. */
  type Value = int

  // ---------------------------------------------------------------------------
  // Counts per key
  // ---------------------------------------------------------------------------

  /** One output row of a count aggregation: a key and a (partial or final) count. */
  datatype CountRow = CountRow(key: Key, count: nat)

  /** Each key mapped to its number of occurrences; keys that do not occur are absent. */
  function CountOf(keys: multiset<Key>): (counts: map<Key, nat>)
    ensures forall k :: k in counts <==> keys[k] > 0
    ensures forall k :: k in counts ==> counts[k] == keys[k]
  {
    map k | k in keys :: keys[k]
  }

  /**
   * The scenario's reference count: for each document, `compute(key, v ->
   * v == null ? 1 : v + 1)`.
   */
  method ExpectedCounts(docKeys: seq<Key>) returns (counts: map<Key, nat>)
    ensures counts == CountOf(multiset(docKeys))
  {
    counts := map[];
    var i := 0;
    while i < |docKeys|
      invariant 0 <= i <= |docKeys|
      invariant counts == CountOf(multiset(docKeys[..i]))
    {
      var key := docKeys[i];
      assert multiset(docKeys[..i + 1]) == multiset(docKeys[..i]) + multiset{key} by {
        assert docKeys[..i + 1] == docKeys[..i] + [key];
      }
      CountOfAdd(multiset(docKeys[..i]), key);
      counts := counts[key := if key in counts then counts[key] + 1 else 1];
      i := i + 1;
    }
    assert docKeys[..i] == docKeys;
  }

  /** One more occurrence of a key adds one to its count (or starts it at one). */
  lemma CountOfAdd(keys: multiset<Key>, key: Key)
    ensures var before := CountOf(keys);
            CountOf(keys + multiset{key}) == before[key := if key in before then before[key] + 1 else 1]
  {
    var before := CountOf(keys);
    var after, expected := CountOf(keys + multiset{key}), before[key := if key in before then before[key] + 1 else 1];
    forall k | k in after
      ensures k in expected && after[k] == expected[k]
    {
      if k != key {
        assert (keys + multiset{key})[k] == keys[k];
      }
    }
    assert after.Keys == expected.Keys;
  }

  /** The documents an INITIAL stage's partial rows account for: `count` copies of each row's key. */
  ghost function Covered(partials: seq<CountRow>): multiset<Key>
  {
    if |partials| == 0 then multiset{}
    else
      var row := partials[|partials| - 1];
      Covered(partials[..|partials| - 1]) + multiset{}[row.key := row.count]
  }

  /** The FINAL aggregation: the partial counts of each key summed. */
  function FinalCounts(partials: seq<CountRow>): map<Key, nat>
  {
    if |partials| == 0 then map[]
    else
      var prior := FinalCounts(partials[..|partials| - 1]);
      var row := partials[|partials| - 1];
      prior[row.key := (if row.key in prior then prior[row.key] else 0) + row.count]
  }

  /**
   * Summing non-empty partial counts per key gives the occurrence count of
   * every key among the documents the partials account for.
   */
  lemma {:induction false} FinalCountsAreCounts(partials: seq<CountRow>)
    requires forall i :: 0 <= i < |partials| ==> partials[i].count > 0
    ensures FinalCounts(partials) == CountOf(Covered(partials))
  {
    if |partials| > 0 {
      var init := partials[..|partials| - 1];
      var row := partials[|partials| - 1];
      FinalCountsAreCounts(init);
      var m := Covered(init);
      var prior := FinalCounts(init);
      var whole := m + multiset{}[row.key := row.count];
      forall k | k in FinalCounts(partials)
        ensures k in CountOf(whole) && FinalCounts(partials)[k] == CountOf(whole)[k]
      {
      }
      assert FinalCounts(partials).Keys == CountOf(whole).Keys;
    }
  }

  /**
   * INITIAL then FINAL: whenever the INITIAL rows split the documents into
   * non-empty groups of equal keys (in any order, after any shuffle), the FINAL
   * count of each key is the number of documents carrying it.
   */
  lemma GroupedCountsMatchDocs(docKeys: seq<Key>, partials: seq<CountRow>)
    requires forall i :: 0 <= i < |partials| ==> partials[i].count > 0
    requires Covered(partials) == multiset(docKeys)
    ensures forall k :: k in FinalCounts(partials) <==> k in docKeys
    ensures forall k :: k in FinalCounts(partials) ==> FinalCounts(partials)[k] == multiset(docKeys)[k]
  {
    FinalCountsAreCounts(partials);
  }

  /** Rows listing a map: one row per key, each with that key's value. */
  ghost predicate ListsCounts(rows: seq<CountRow>, m: map<Key, nat>) {
    && (forall i, j :: 0 <= i < j < |rows| ==> rows[i].key != rows[j].key)
    && (forall i :: 0 <= i < |rows| ==> rows[i].key in m && rows[i].count == m[rows[i].key])
    && (forall k :: k in m ==> exists i :: 0 <= i < |rows| && rows[i].key == k)
  }

  /**
   * The count scenario's page consumer: `actualCounts.put(key, count)` for
   * every output row. A key's entry holds the count of its last row.
   */
  method CollectCounts(rows: seq<CountRow>) returns (actual: map<Key, nat>)
    ensures forall k :: k in actual <==> exists i :: 0 <= i < |rows| && rows[i].key == k
    ensures forall i :: 0 <= i < |rows| && (forall j :: i < j < |rows| ==> rows[j].key != rows[i].key) ==>
              actual[rows[i].key] == rows[i].count
  {
    actual := map[];
    var i := 0;
    while i < |rows|
      invariant 0 <= i <= |rows|
      invariant forall k :: k in actual <==> exists j :: 0 <= j < i && rows[j].key == k
      invariant forall j :: 0 <= j < i && (forall l :: j < l < i ==> rows[l].key != rows[j].key) ==>
                  actual[rows[j].key] == rows[j].count
    {
      actual := actual[rows[i].key := rows[i].count];
      i := i + 1;
    }
  }

  /** When the rows list a map, the consumer rebuilds exactly that map. */
  lemma CollectedListing(rows: seq<CountRow>, m: map<Key, nat>, actual: map<Key, nat>)
    requires ListsCounts(rows, m)
    requires forall k :: k in actual <==> exists i :: 0 <= i < |rows| && rows[i].key == k
    requires forall i :: 0 <= i < |rows| && (forall j :: i < j < |rows| ==> rows[j].key != rows[i].key) ==>
               actual[rows[i].key] == rows[i].count
    ensures actual == m
  {
    forall k | k in actual
      ensures k in m && actual[k] == m[k]
    {
      var i :| 0 <= i < |rows| && rows[i].key == k;
    }
  }

  /**
   * The count scenario end to end: the consumer's map over the FINAL rows
   * equals the reference count, for every page cut and every INITIAL split.
   */
  method CheckGroupingCounts(docKeys: seq<Key>, partials: seq<CountRow>, finalRows: seq<CountRow>)
    returns (equal: bool)
    requires forall i :: 0 <= i < |partials| ==> partials[i].count > 0
    requires Covered(partials) == multiset(docKeys)
    requires ListsCounts(finalRows, FinalCounts(partials))
    ensures equal
  {
    var expected := ExpectedCounts(docKeys);
    var actual := CollectCounts(finalRows);
    FinalCountsAreCounts(partials);
    CollectedListing(finalRows, FinalCounts(partials), actual);
    equal := actual == expected;
  }

  // ---------------------------------------------------------------------------
  // Value sets per key
  // ---------------------------------------------------------------------------

  /** A document (its key and its values) or an output row (a key and a multi-valued position). */
  datatype ValueRow = ValueRow(key: Key, values: seq<Value>)

  /** The (key, value) pairs of one row, in value order. */
  function RowPairs(row: ValueRow): (pairs: seq<(Key, Value)>)
    ensures |pairs| == |row.values|
    ensures forall i :: 0 <= i < |pairs| ==> pairs[i] == (row.key, row.values[i])
  {
    seq(|row.values|, i requires 0 <= i < |row.values| => (row.key, row.values[i]))
  }

  /** The (key, value) pairs of all rows, row by row. */
  function Pairs(rows: seq<ValueRow>): seq<(Key, Value)>
  {
    if |rows| == 0 then [] else Pairs(rows[..|rows| - 1]) + RowPairs(rows[|rows| - 1])
  }

  /** `computeIfAbsent(key, k -> new HashSet<>()).add(v)` on a value map. */
  function AddValue(m: map<Key, set<Value>>, key: Key, v: Value): (r: map<Key, set<Value>>)
    ensures r.Keys == m.Keys + {key}
    ensures r[key] == (if key in m then m[key] else {}) + {v}
    ensures forall k :: k in m && k != key ==> r[k] == m[k]
  {
    m[key := (if key in m then m[key] else {}) + {v}]
  }

  /**
   * Each key mapped to the set of values paired with it, built one pair at a
   * time. A key appears only when it has at least one value.
   */
  function ValuesOf(pairs: seq<(Key, Value)>): map<Key, set<Value>>
  {
    if |pairs| == 0 then map[]
    else
      var last := pairs[|pairs| - 1];
      AddValue(ValuesOf(pairs[..|pairs| - 1]), last.0, last.1)
  }

  /** Merging two value maps key by key, as the FINAL stage merges INITIAL partials. */
  function UnionMerge(a: map<Key, set<Value>>, b: map<Key, set<Value>>): map<Key, set<Value>>
  {
    map k | k in a.Keys + b.Keys :: (if k in a then a[k] else {}) + (if k in b then b[k] else {})
  }

  /** A value is in a key's set exactly when the pair occurs; no key has an empty set. */
  lemma {:induction false} ValuesOfMembers(pairs: seq<(Key, Value)>)
    ensures forall k, v :: (k, v) in pairs <==> k in ValuesOf(pairs) && v in ValuesOf(pairs)[k]
    ensures forall k :: k in ValuesOf(pairs) ==> ValuesOf(pairs)[k] != {}
  {
    if |pairs| > 0 {
      var init := pairs[..|pairs| - 1];
      ValuesOfMembers(init);
      assert pairs == init + [pairs[|pairs| - 1]];
    }
  }

  /** `ValuesOfMembers` for one given pair. */
  lemma ValuesOfMember(pairs: seq<(Key, Value)>, key: Key, v: Value)
    ensures (key, v) in pairs <==> key in ValuesOf(pairs) && v in ValuesOf(pairs)[key]
  {
    ValuesOfMembers(pairs);
  }

  /** Adding a pair after merging is adding it to the second map before merging. */
  lemma AddValueMerge(a: map<Key, set<Value>>, b: map<Key, set<Value>>, key: Key, v: Value)
    ensures AddValue(UnionMerge(a, b), key, v) == UnionMerge(a, AddValue(b, key, v))
  {
    var left, right := AddValue(UnionMerge(a, b), key, v), UnionMerge(a, AddValue(b, key, v));
    forall k | k in left.Keys + right.Keys
      ensures k in left && k in right && left[k] == right[k]
    {
      AddValueMergeAt(a, b, key, v, k);
    }
    assert left.Keys == right.Keys;
  }

  lemma AddValueMergeAt(a: map<Key, set<Value>>, b: map<Key, set<Value>>, key: Key, v: Value, k: Key)
    requires k in a || k in b || k == key
    ensures var left, right := AddValue(UnionMerge(a, b), key, v), UnionMerge(a, AddValue(b, key, v));
            k in left && k in right && left[k] == right[k]
  {
    var merged, added := UnionMerge(a, b), AddValue(b, key, v);
    if k == key {
      assert AddValue(merged, key, v)[k] == (if k in merged then merged[k] else {}) + {v};
      assert UnionMerge(a, added)[k] == (if k in a then a[k] else {}) + added[k];
    } else {
      assert AddValue(merged, key, v)[k] == merged[k];
      assert UnionMerge(a, added)[k] == (if k in a then a[k] else {}) + (if k in b then b[k] else {});
    }
  }

  /** The values of a concatenation are the key-wise union of the values of its parts. */
  lemma {:induction false} ValuesOfAppend(a: seq<(Key, Value)>, b: seq<(Key, Value)>)
    ensures ValuesOf(a + b) == UnionMerge(ValuesOf(a), ValuesOf(b))
    decreases |b|
  {
    if |b| == 0 {
      assert a + b == a;
      var va := ValuesOf(a);
      assert UnionMerge(va, map[]).Keys == va.Keys;
      forall k | k in va
        ensures UnionMerge(va, map[])[k] == va[k]
      {
      }
    } else {
      var init, last := b[..|b| - 1], b[|b| - 1];
      assert (a + b)[..|a + b| - 1] == a + init;
      ValuesOfAppend(a, init);
      AddValueMerge(ValuesOf(a), ValuesOf(init), last.0, last.1);
    }
  }

  /** The values of the pairs so far, plus one more pair. */
  lemma AddValueIsAppend(pairs: seq<(Key, Value)>, key: Key, v: Value)
    ensures ValuesOf(pairs + [(key, v)]) == AddValue(ValuesOf(pairs), key, v)
  {
    assert (pairs + [(key, v)])[..|pairs|] == pairs;
  }

  /** The next row's pairs follow those of the rows before it. */
  lemma PairsStep(rows: seq<ValueRow>, i: int)
    requires 0 <= i < |rows|
    ensures Pairs(rows[..i + 1]) == Pairs(rows[..i]) + RowPairs(rows[i])
  {
    assert rows[..i + 1][..i] == rows[..i];
  }

  /** The pairs of the first rows come first in the pairs of all rows. */
  lemma {:induction false} PairsOfPrefix(rows: seq<ValueRow>, n: int)
    requires 0 <= n <= |rows|
    ensures Pairs(rows[..n]) <= Pairs(rows)
    decreases |rows|
  {
    if n == |rows| {
      assert rows[..n] == rows;
    } else {
      var init := rows[..|rows| - 1];
      PairsOfPrefix(init, n);
      assert init[..n] == rows[..n];
    }
  }

  /** One more value of the current row. */
  lemma RowPairsStep(key: Key, values: seq<Value>, j: int)
    requires 0 <= j < |values|
    ensures RowPairs(ValueRow(key, values[..j + 1])) == RowPairs(ValueRow(key, values[..j])) + [(key, values[j])]
  {
  }

  /** A sequence with a repeat makes every sequence it begins repeat too. */
  lemma NotDistinctExtends<T>(a: seq<T>, s: seq<T>)
    requires a <= s && !Distinct(a)
    ensures !Distinct(s)
  {
    assert s == a + s[|a|..];
    if Distinct(s) {
      DistinctPrefix(a, s[|a|..]);
    }
  }

  /** A sequence holds each element at least as often as any sequence that begins it. */
  lemma CountInPrefix<T>(x: T, a: seq<T>, s: seq<T>)
    requires a <= s
    ensures multiset(a)[x] <= multiset(s)[x]
  {
    assert s == a + s[|a|..];
  }

  /**
   * The VALUES scenario's reference: for every value of every document,
   * `expectedValues.computeIfAbsent(key, ...).add(val)`. Documents without
   * values leave no key behind.
   */
  method ExpectedValues(docs: seq<ValueRow>) returns (expected: map<Key, set<Value>>)
    ensures expected == ValuesOf(Pairs(docs))
  {
    expected := map[];
    var i := 0;
    while i < |docs|
      invariant 0 <= i <= |docs|
      invariant expected == ValuesOf(Pairs(docs[..i]))
    {
      expected := AddRowValues(expected, Pairs(docs[..i]), docs[i]);
      PairsStep(docs, i);
      i := i + 1;
    }
    assert docs[..i] == docs;
  }

  /** The inner loop of the reference: adds each value of one document under its key. */
  method AddRowValues(m: map<Key, set<Value>>, ghost seen: seq<(Key, Value)>, doc: ValueRow)
    returns (r: map<Key, set<Value>>)
    requires m == ValuesOf(seen)
    ensures r == ValuesOf(seen + RowPairs(doc))
  {
    r := m;
    var j := 0;
    assert Through(seen, doc, 0) == seen;
    while j < |doc.values|
      invariant 0 <= j <= |doc.values|
      invariant r == ValuesOf(Through(seen, doc, j))
    {
      AddedInRow(seen, doc, j);
      r := AddValue(r, doc.key, doc.values[j]);
      j := j + 1;
    }
    assert Through(seen, doc, j) == seen + RowPairs(doc) by {
      assert doc.values[..j] == doc.values;
    }
  }

  /** The `j`-th value of the row adds its pair to the values seen so far. */
  lemma AddedInRow(seen: seq<(Key, Value)>, row: ValueRow, j: int)
    requires 0 <= j < |row.values|
    ensures ValuesOf(Through(seen, row, j + 1)) == AddValue(ValuesOf(Through(seen, row, j)), row.key, row.values[j])
  {
    ThroughStep(seen, row, j);
    AddValueIsAppend(Through(seen, row, j), row.key, row.values[j]);
  }

  /**
   * The VALUES scenario's page consumer: for each value of each position,
   * adds it to the key's set and fails (`assertTrue(added)`) when it was
   * already there. Succeeds exactly when no (key, value) pair repeats, and
   * then holds every key's value set.
   */
  method CollectValues(rows: seq<ValueRow>) returns (r: Result<map<Key, set<Value>>, (Key, Value)>)
    ensures r.Success? <==> Distinct(Pairs(rows))
    ensures r.Success? ==> r.value == ValuesOf(Pairs(rows))
    ensures r.Failure? ==> multiset(Pairs(rows))[r.error] >= 2
  {
    var actual: map<Key, set<Value>> := map[];
    var i := 0;
    while i < |rows|
      invariant 0 <= i <= |rows|
      invariant Distinct(Pairs(rows[..i])) && actual == ValuesOf(Pairs(rows[..i]))
    {
      var row := CollectRow(actual, Pairs(rows[..i]), rows[i]);
      PairsStep(rows, i);
      if row.Failure? {
        PairsOfPrefix(rows, i + 1);
        NotDistinctExtends(Pairs(rows[..i + 1]), Pairs(rows));
        CountInPrefix(row.error, Pairs(rows[..i + 1]), Pairs(rows));
        return Failure(row.error);
      }
      actual := row.value;
      i := i + 1;
    }
    assert rows[..i] == rows;
    return Success(actual);
  }

  /** The pairs seen once the first `j` values of `row` follow `seen`. */
  function Through(seen: seq<(Key, Value)>, row: ValueRow, j: int): seq<(Key, Value)>
    requires 0 <= j <= |row.values|
  {
    seen + RowPairs(ValueRow(row.key, row.values[..j]))
  }

  /**
   * The consumer's inner loop over one position: fails on the first value
   * already in the key's set.
   */
  method CollectRow(m: map<Key, set<Value>>, ghost seen: seq<(Key, Value)>, row: ValueRow)
    returns (r: Result<map<Key, set<Value>>, (Key, Value)>)
    requires Distinct(seen) && m == ValuesOf(seen)
    ensures r.Success? <==> Distinct(seen + RowPairs(row))
    ensures r.Success? ==> r.value == ValuesOf(seen + RowPairs(row))
    ensures r.Failure? ==> multiset(seen + RowPairs(row))[r.error] >= 2
  {
    var actual := m;
    var j := 0;
    assert Through(seen, row, 0) == seen;
    while j < |row.values|
      invariant 0 <= j <= |row.values|
      invariant Distinct(Through(seen, row, j)) && actual == ValuesOf(Through(seen, row, j))
    {
      var v := row.values[j];
      if row.key in actual && v in actual[row.key] {
        RepeatInRow(seen, row, j);
        return Failure((row.key, v));
      }
      FreshInRow(seen, row, j);
      actual := AddValue(actual, row.key, v);
      j := j + 1;
    }
    assert Through(seen, row, j) == seen + RowPairs(row) by {
      assert row.values[..j] == row.values;
    }
    return Success(actual);
  }

  /** The `j`-th value of the row is already in its key's set: the pairs repeat. */
  lemma RepeatInRow(seen: seq<(Key, Value)>, row: ValueRow, j: int)
    requires 0 <= j < |row.values|
    requires row.key in ValuesOf(Through(seen, row, j)) && row.values[j] in ValuesOf(Through(seen, row, j))[row.key]
    ensures !Distinct(seen + RowPairs(row))
    ensures multiset(seen + RowPairs(row))[(row.key, row.values[j])] >= 2
  {
    var cur, p := Through(seen, row, j), (row.key, row.values[j]);
    ValuesOfMember(cur, row.key, row.values[j]);
    RepeatNotDistinct(cur, p);
    ThroughStep(seen, row, j);
    NotDistinctExtends(cur + [p], seen + RowPairs(row));
    assert multiset(cur + [p])[p] == multiset(cur)[p] + 1;
    CountInPrefix(p, cur + [p], seen + RowPairs(row));
  }

  /** The `j`-th value of the row is new for its key: the pairs stay distinct and the value is added. */
  lemma FreshInRow(seen: seq<(Key, Value)>, row: ValueRow, j: int)
    requires 0 <= j < |row.values|
    requires Distinct(Through(seen, row, j))
    requires !(row.key in ValuesOf(Through(seen, row, j)) && row.values[j] in ValuesOf(Through(seen, row, j))[row.key])
    ensures Distinct(Through(seen, row, j + 1))
    ensures ValuesOf(Through(seen, row, j + 1)) == AddValue(ValuesOf(Through(seen, row, j)), row.key, row.values[j])
  {
    ThroughStep(seen, row, j);
    FreshPair(Through(seen, row, j), row.key, row.values[j]);
  }

  /** One more value of the row: its pair follows, and what is seen still begins all the row's pairs. */
  lemma ThroughStep(seen: seq<(Key, Value)>, row: ValueRow, j: int)
    requires 0 <= j < |row.values|
    ensures Through(seen, row, j + 1) == Through(seen, row, j) + [(row.key, row.values[j])]
    ensures Through(seen, row, j + 1) <= seen + RowPairs(row)
  {
    RowPairsStep(row.key, row.values, j);
    RowPairsPrefix(row, j + 1);
  }

  /** The pairs of the first values of a row begin the row's pairs. */
  lemma RowPairsPrefix(row: ValueRow, j: int)
    requires 0 <= j <= |row.values|
    ensures RowPairs(ValueRow(row.key, row.values[..j])) <= RowPairs(row)
  {
  }

  /** Adding a pair not seen before keeps the pairs distinct and adds its value. */
  lemma FreshPair(seen: seq<(Key, Value)>, key: Key, v: Value)
    requires Distinct(seen)
    requires !(key in ValuesOf(seen) && v in ValuesOf(seen)[key])
    ensures Distinct(seen + [(key, v)])
    ensures ValuesOf(seen + [(key, v)]) == AddValue(ValuesOf(seen), key, v)
  {
    ValuesOfMember(seen, key, v);
    DistinctConcat(seen, [(key, v)]);
    AddValueIsAppend(seen, key, v);
  }

  /** FINAL output shape: one position per key, no value twice within a position. */
  ghost predicate OnePositionPerKey(rows: seq<ValueRow>) {
    && (forall i, j :: 0 <= i < j < |rows| ==> rows[i].key != rows[j].key)
    && (forall i :: 0 <= i < |rows| ==> Distinct(rows[i].values))
  }

  /** Rows with one position per key and distinct values per position repeat no (key, value) pair. */
  lemma {:induction false} OnePositionPerKeyDistinct(rows: seq<ValueRow>)
    requires OnePositionPerKey(rows)
    ensures Distinct(Pairs(rows))
    ensures forall p :: p in Pairs(rows) ==> exists i :: 0 <= i < |rows| && rows[i].key == p.0
  {
    if |rows| > 0 {
      var init, last := rows[..|rows| - 1], rows[|rows| - 1];
      OnePositionPerKeyDistinct(init);
      var tail := RowPairs(last);
      forall a, b | 0 <= a < b < |tail|
        ensures tail[a] != tail[b]
      {
        assert last.values[a] != last.values[b];
      }
      forall p | p in Pairs(init)
        ensures p !in tail
      {
        var i :| 0 <= i < |init| && init[i].key == p.0;
        assert rows[i].key != last.key;
      }
      DistinctConcat(Pairs(init), tail);
      forall p | p in Pairs(rows)
        ensures exists i :: 0 <= i < |rows| && rows[i].key == p.0
      {
        if p in Pairs(init) {
          var i :| 0 <= i < |init| && init[i].key == p.0;
          assert rows[i].key == p.0;
        } else {
          assert p in tail;
          assert rows[|rows| - 1].key == p.0;
        }
      }
    }
  }

  /**
   * The FINAL aggregation of the VALUES scenario: the value sets of the
   * INITIAL partial rows merged key by key, one partial after another.
   */
  function FinalValues(partials: seq<ValueRow>): map<Key, set<Value>>
  {
    if |partials| == 0 then map[]
    else UnionMerge(FinalValues(partials[..|partials| - 1]), ValuesOf(RowPairs(partials[|partials| - 1])))
  }

  /** Merging the partials one by one gives the value sets of all their pairs together. */
  lemma {:induction false} FinalValuesAreValues(partials: seq<ValueRow>)
    ensures FinalValues(partials) == ValuesOf(Pairs(partials))
  {
    if |partials| > 0 {
      var init := partials[..|partials| - 1];
      FinalValuesAreValues(init);
      ValuesOfAppend(Pairs(init), RowPairs(partials[|partials| - 1]));
    }
  }

  /** A key with a value set comes from some pair. */
  lemma {:induction false} KeyHasPair(pairs: seq<(Key, Value)>, k: Key) returns (v: Value)
    requires k in ValuesOf(pairs)
    ensures (k, v) in pairs
  {
    var init, last := pairs[..|pairs| - 1], pairs[|pairs| - 1];
    if last.0 == k {
      v := last.1;
    } else {
      v := KeyHasPair(init, k);
      assert pairs == init + [last];
    }
  }

  /** The value sets depend only on which pairs occur, not on their order or repetition. */
  lemma ValuesOfSamePairs(a: seq<(Key, Value)>, b: seq<(Key, Value)>)
    requires forall p :: p in a <==> p in b
    ensures ValuesOf(a) == ValuesOf(b)
  {
    ValuesOfMembers(a);
    ValuesOfMembers(b);
    var va, vb := ValuesOf(a), ValuesOf(b);
    forall k | k in va
      ensures k in vb && va[k] == vb[k]
    {
      var v := KeyHasPair(a, k);
      assert (k, v) in b;
      forall w
        ensures w in va[k] <==> w in vb[k]
      {
        assert (k, w) in a <==> (k, w) in b;
      }
    }
    forall k | k in vb
      ensures k in va
    {
      var v := KeyHasPair(b, k);
      assert (k, v) in a;
    }
    assert va.Keys == vb.Keys;
  }

  /**
   * The VALUES scenario end to end: the INITIAL partial rows together hold
   * exactly the indexed (key, value) pairs, in any split and order; the FINAL
   * rows give each key of their merge one position holding each of its values
   * once. Then the consumer's `added` check never fails and its map equals the
   * reference.
   */
  method CheckValuesGrouping(docs: seq<ValueRow>, partials: seq<ValueRow>, finalRows: seq<ValueRow>)
    returns (allAdded: bool, equal: bool)
    requires forall p :: p in Pairs(partials) <==> p in Pairs(docs)
    requires OnePositionPerKey(finalRows)
    requires ValuesOf(Pairs(finalRows)) == FinalValues(partials)
    ensures allAdded && equal
  {
    var expected := ExpectedValues(docs);
    FinalValuesAreValues(partials);
    ValuesOfSamePairs(Pairs(partials), Pairs(docs));
    OnePositionPerKeyDistinct(finalRows);
    var actual := CollectValues(finalRows);
    allAdded := actual.Success?;
    equal := actual.Success? && actual.value == expected;
  }
}
