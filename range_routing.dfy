/**
 * The range-tag scenario: the scan runs three range queries over the long
 * field `g`, each with one tag, and every emitted row carries the tag of the
 * query that matched it next to the loaded long `v`. The row check routes each
 * row by `(int) tag` through a switch with three cases, each bounding the value
 * by its group's maximum and noting whether the maximum itself was seen.
 */
module RangeRouting {
  import opened Wrappers

  const LongMin := -0x8000_0000_0000_0000
  const LongMax := 0x7FFF_FFFF_FFFF_FFFF

  predicate IsLong(x: int) {
    LongMin <= x <= LongMax
  }

  /** Java's `(int)` narrowing of a long: the low 32 bits, read as two's complement. */
  function ToInt32(x: int): int
  {
    (x + 0x8000_0000) % 0x1_0000_0000 - 0x8000_0000
  }

  /** The narrowing lands in the int range, keeps x modulo 2^32, and leaves an int-sized x unchanged. */
  lemma ToInt32Narrows(x: int)
    ensures -0x8000_0000 <= ToInt32(x) < 0x8000_0000
    ensures (x - ToInt32(x)) % 0x1_0000_0000 == 0
    ensures -0x8000_0000 <= x < 0x8000_0000 ==> ToInt32(x) == x
  {
  }

  /** An indexed document: its group field and its value field. */
  datatype Doc = Doc(g: int, v: int)

  /** `LongPoint.newRangeQuery("g", lo, hi)` (both ends inclusive) with its one tag. */
  datatype QueryAndTag = QueryAndTag(lo: int, hi: int, tag: int)

  const FirstGroup := QueryAndTag(LongMin, 99, 0)
  const SecondGroup := QueryAndTag(100, 9999, 100)
  const ThirdGroup := QueryAndTag(10000, LongMax, 10000)

  /** The scenario's three queries and tags. */
  function GroupQueries(): seq<QueryAndTag>
  {
    [FirstGroup, SecondGroup, ThirdGroup]
  }

  /** A scanned row: block 1 (the tag) and block 2 (the loaded `v`). */
  datatype Row = Row(tag: int, v: int)

  /** What the scan emits for one query: a row per matching document, carrying the query's tag. */
  function ScanQuery(q: QueryAndTag, docs: seq<Doc>): (rows: seq<Row>)
    ensures forall r :: r in rows ==> r.tag == q.tag
    ensures |rows| <= |docs|
  {
    if |docs| == 0 then []
    else
      var d := docs[|docs| - 1];
      ScanQuery(q, docs[..|docs| - 1]) + (if q.lo <= d.g <= q.hi then [Row(q.tag, d.v)] else [])
  }

  /** What the scan emits for all queries, query by query. */
  function ScanAll(queries: seq<QueryAndTag>, docs: seq<Doc>): seq<Row>
  {
    if |queries| == 0 then [] else ScanQuery(queries[0], docs) + ScanAll(queries[1..], docs)
  }

  /** The tag of the one query whose range holds g. */
  function RangeTag(g: int): int
  {
    if g <= 99 then 0 else if g <= 9999 then 100 else 10000
  }

  /** Every document tagged once, by the range its group falls in. */
  function TaggedRows(docs: seq<Doc>): (rows: seq<Row>)
    ensures |rows| == |docs|
    ensures forall j :: 0 <= j < |docs| ==> rows[j] == Row(RangeTag(docs[j].g), docs[j].v)
  {
    seq(|docs|, j requires 0 <= j < |docs| => Row(RangeTag(docs[j].g), docs[j].v))
  }

  lemma ScanAllThree(docs: seq<Doc>)
    ensures ScanAll(GroupQueries(), docs) == ScanQuery(FirstGroup, docs) + ScanQuery(SecondGroup, docs) + ScanQuery(ThirdGroup, docs)
  {
    var qs := GroupQueries();
    assert qs[1..] == [SecondGroup, ThirdGroup] && qs[1..][1..] == [ThirdGroup] && qs[1..][1..][1..] == [];
    var a, b, c := ScanQuery(FirstGroup, docs), ScanQuery(SecondGroup, docs), ScanQuery(ThirdGroup, docs);
    assert ScanAll(qs[1..][1..], docs) == c + [];
    assert ScanAll(qs[1..], docs) == b + (c + []);
    assert ScanAll(qs, docs) == a + (b + (c + []));
    assert a + (b + (c + [])) == a + b + c;
  }

  /** A long group value falls in exactly one of the three ranges: the one RangeTag names. */
  lemma OneRangeHolds(g: int)
    requires IsLong(g)
    ensures FirstGroup.lo <= g <= FirstGroup.hi <==> RangeTag(g) == FirstGroup.tag
    ensures SecondGroup.lo <= g <= SecondGroup.hi <==> RangeTag(g) == SecondGroup.tag
    ensures ThirdGroup.lo <= g <= ThirdGroup.hi <==> RangeTag(g) == ThirdGroup.tag
  {
  }

  lemma TaggedRowsSnoc(docs: seq<Doc>)
    requires |docs| > 0
    ensures TaggedRows(docs) == TaggedRows(docs[..|docs| - 1]) + [Row(RangeTag(docs[|docs| - 1].g), docs[|docs| - 1].v)]
  {
  }

  /**
   * The three ranges are disjoint and cover every long: the scan emits each
   * document exactly once, tagged with the tag of the range holding its group.
   */
  lemma {:induction false} ScanTagsEachDocOnce(docs: seq<Doc>)
    requires forall i :: 0 <= i < |docs| ==> IsLong(docs[i].g)
    ensures multiset(ScanAll(GroupQueries(), docs)) == multiset(TaggedRows(docs))
  {
    ScanAllThree(docs);
    if |docs| > 0 {
      var init, d := docs[..|docs| - 1], docs[|docs| - 1];
      ScanTagsEachDocOnce(init);
      ScanAllThree(init);
      OneRangeHolds(d.g);
      TaggedRowsSnoc(docs);
    }
  }

  /** Which case of the switch a tag reaches: 0, 1 or 2, or none (the default branch). */
  function Case(tag: int): (c: Option<int>)
    ensures c.Some? <==> ToInt32(tag) in {0, 100, 10000}
    ensures c.Some? ==> 0 <= c.value < 3
  {
    var t := ToInt32(tag);
    if t == 0 then Some(0) else if t == 100 then Some(1) else if t == 10000 then Some(2) else None
  }

  /** The three group maxima, drawn at random by the scenario. */
  datatype Maxes = Maxes(first: int, second: int, third: int)

  function MaxOf(maxes: Maxes, c: int): int
  {
    if c == 0 then maxes.first else if c == 1 then maxes.second else maxes.third
  }

  /** A row that passes its case: the tag reaches a case and the value is at most that case's maximum. */
  predicate RowPasses(row: Row, maxes: Maxes) {
    Case(row.tag).Some? && row.v <= MaxOf(maxes, Case(row.tag).value)
  }

  /** Some row of case c carries that case's maximum. */
  ghost predicate SawMax(rows: seq<Row>, maxes: Maxes, c: int) {
    exists i :: 0 <= i < |rows| && Case(rows[i].tag) == Some(c) && rows[i].v == MaxOf(maxes, c)
  }

  /** One more row: the maximum of case c has been seen when it was before or this row carries it. */
  lemma SawMaxStep(rows: seq<Row>, maxes: Maxes, i: int)
    requires 0 <= i < |rows|
    ensures forall c :: SawMax(rows[..i + 1], maxes, c) <==>
              SawMax(rows[..i], maxes, c) || (Case(rows[i].tag) == Some(c) && rows[i].v == MaxOf(maxes, c))
  {
    forall c
      ensures SawMax(rows[..i + 1], maxes, c) ==>
                SawMax(rows[..i], maxes, c) || (Case(rows[i].tag) == Some(c) && rows[i].v == MaxOf(maxes, c))
    {
      if SawMax(rows[..i + 1], maxes, c) {
        var k :| 0 <= k < i + 1 && Case(rows[..i + 1][k].tag) == Some(c) && rows[..i + 1][k].v == MaxOf(maxes, c);
        if k < i {
          assert rows[..i][k] == rows[k];
        }
      }
    }
    forall c | Case(rows[i].tag) == Some(c) && rows[i].v == MaxOf(maxes, c)
      ensures SawMax(rows[..i + 1], maxes, c)
    {
      assert rows[..i + 1][i] == rows[i];
    }
    forall c | SawMax(rows[..i], maxes, c)
      ensures SawMax(rows[..i + 1], maxes, c)
    {
      var k :| 0 <= k < i && Case(rows[..i][k].tag) == Some(c) && rows[..i][k].v == MaxOf(maxes, c);
      assert rows[..i + 1][k] == rows[k];
    }
  }

  datatype RoutingError =
    | AboveMax(tag: int, v: int)   // `assertThat(v, lessThanOrEqualTo(max))` fails
    | UnknownGroup(g: int)         // the default branch: "Unknown group [g]"
    | MaxNotSeen(c: int)           // `assertTrue(saw...Max)` fails

  /**
   * The row-check loop over all rows, then the three `assertTrue(saw...)`.
   * Passes exactly when every row passes its case and each case's maximum
   * was seen.
   */
  method CheckRoutedRows(rows: seq<Row>, maxes: Maxes) returns (err: Option<RoutingError>)
    ensures err.None? <==>
              (forall i :: 0 <= i < |rows| ==> RowPasses(rows[i], maxes)) &&
              SawMax(rows, maxes, 0) && SawMax(rows, maxes, 1) && SawMax(rows, maxes, 2)
    ensures err.Some? && err.value.UnknownGroup? ==> exists i :: 0 <= i < |rows| && Case(rows[i].tag).None?
  {
    var sawFirstMax, sawSecondMax, sawThirdMax := false, false, false;
    var i := 0;
    while i < |rows|
      invariant 0 <= i <= |rows|
      invariant forall j :: 0 <= j < i ==> RowPasses(rows[j], maxes)
      invariant sawFirstMax <==> SawMax(rows[..i], maxes, 0)
      invariant sawSecondMax <==> SawMax(rows[..i], maxes, 1)
      invariant sawThirdMax <==> SawMax(rows[..i], maxes, 2)
    {
      var g, v := rows[i].tag, rows[i].v;
      SawMaxStep(rows, maxes, i);
      match ToInt32(g) {
      case 0 =>
        if v > maxes.first {
          return Some(AboveMax(g, v));
        }
        sawFirstMax := sawFirstMax || v == maxes.first;
      case 100 =>
        if v > maxes.second {
          return Some(AboveMax(g, v));
        }
        sawSecondMax := sawSecondMax || v == maxes.second;
      case 10000 =>
        if v > maxes.third {
          return Some(AboveMax(g, v));
        }
        sawThirdMax := sawThirdMax || v == maxes.third;
      case _ =>
        return Some(UnknownGroup(g));
      }
      i := i + 1;
    }
    assert rows[..i] == rows;
    if !sawFirstMax {
      return Some(MaxNotSeen(0));
    }
    if !sawSecondMax {
      return Some(MaxNotSeen(1));
    }
    if !sawThirdMax {
      return Some(MaxNotSeen(2));
    }
    return None;
  }

  /** A randomly generated document: its group in one of the three ranges, its value at most that group's maximum. */
  ghost predicate GeneratedDoc(d: Doc, maxes: Maxes) {
    && IsLong(d.g) && IsLong(d.v)
    && (d.g <= 99 ==> d.v <= maxes.first)
    && (100 <= d.g <= 9999 ==> d.v <= maxes.second)
    && (10000 <= d.g ==> d.v <= maxes.third)
  }

  /** The three documents added after the random ones, one per group, each carrying its group's maximum. */
  function ExtraDocs(maxes: Maxes): seq<Doc>
  {
    [Doc(0, maxes.first), Doc(200, maxes.second), Doc(20000, maxes.third)]
  }

  /** A row of a permutation of the tagged rows is the tagged row of some document. */
  lemma RowFromDoc(docs: seq<Doc>, rows: seq<Row>, i: int)
    requires multiset(rows) == multiset(TaggedRows(docs)) && 0 <= i < |rows|
    ensures exists j :: 0 <= j < |docs| && rows[i] == Row(RangeTag(docs[j].g), docs[j].v)
  {
    assert rows[i] in multiset(TaggedRows(docs));
    var k :| 0 <= k < |docs| && TaggedRows(docs)[k] == rows[i];
  }

  /** Every document's tagged row is among the rows of a permutation of the tagged rows. */
  lemma DocHasRow(docs: seq<Doc>, rows: seq<Row>, j: int)
    requires multiset(rows) == multiset(TaggedRows(docs)) && 0 <= j < |docs|
    ensures Row(RangeTag(docs[j].g), docs[j].v) in rows
  {
    assert TaggedRows(docs)[j] in multiset(TaggedRows(docs));
  }

  /** A generated document's tagged row passes its case. */
  lemma GeneratedRowPasses(d: Doc, maxes: Maxes)
    requires GeneratedDoc(d, maxes)
    ensures RowPasses(Row(RangeTag(d.g), d.v), maxes)
  {
  }

  /** The random documents and the three extra ones are all generated documents. */
  lemma ExtraDocsGenerated(docs: seq<Doc>, maxes: Maxes)
    requires IsLong(maxes.first) && IsLong(maxes.second) && IsLong(maxes.third)
    requires forall i :: 0 <= i < |docs| ==> GeneratedDoc(docs[i], maxes)
    ensures forall i :: 0 <= i < |docs + ExtraDocs(maxes)| ==> GeneratedDoc((docs + ExtraDocs(maxes))[i], maxes)
  {
    var all := docs + ExtraDocs(maxes);
    forall i | 0 <= i < |all|
      ensures GeneratedDoc(all[i], maxes)
    {
      if i < |docs| {
        assert all[i] == docs[i];
      } else {
        assert all[i] == ExtraDocs(maxes)[i - |docs|];
      }
    }
  }

  /** Every row of a permutation of the generated documents' tagged rows passes its case. */
  lemma ScannedRowsPass(all: seq<Doc>, maxes: Maxes, rows: seq<Row>)
    requires forall i :: 0 <= i < |all| ==> GeneratedDoc(all[i], maxes)
    requires multiset(rows) == multiset(TaggedRows(all))
    ensures forall i :: 0 <= i < |rows| ==> RowPasses(rows[i], maxes)
  {
    forall i | 0 <= i < |rows|
      ensures RowPasses(rows[i], maxes)
    {
      RowFromDoc(all, rows, i);
      var j :| 0 <= j < |all| && rows[i] == Row(RangeTag(all[j].g), all[j].v);
      GeneratedRowPasses(all[j], maxes);
    }
  }

  /**
   * Whatever documents are drawn and whatever maxima, the scan's rows (in any
   * order) pass the row check: every row reaches a case within its maximum, and
   * the three extra documents make each maximum appear.
   */
  lemma RoutingScenarioPasses(docs: seq<Doc>, maxes: Maxes, rows: seq<Row>)
    requires IsLong(maxes.first) && IsLong(maxes.second) && IsLong(maxes.third)
    requires forall i :: 0 <= i < |docs| ==> GeneratedDoc(docs[i], maxes)
    requires multiset(rows) == multiset(ScanAll(GroupQueries(), docs + ExtraDocs(maxes)))
    ensures forall i :: 0 <= i < |rows| ==> RowPasses(rows[i], maxes)
    ensures SawMax(rows, maxes, 0) && SawMax(rows, maxes, 1) && SawMax(rows, maxes, 2)
  {
    var all := docs + ExtraDocs(maxes);
    ExtraDocsGenerated(docs, maxes);
    ScanTagsEachDocOnce(all);
    ScannedRowsPass(all, maxes, rows);
    forall j | 0 <= j < |all|
      ensures Row(RangeTag(all[j].g), all[j].v) in rows
    {
      DocHasRow(all, rows, j);
    }
    assert all[|all| - 3..] == ExtraDocs(maxes);
    SawEachMax(all, maxes, rows, 0);
    SawEachMax(all, maxes, rows, 1);
    SawEachMax(all, maxes, rows, 2);
  }

  /** The extra document of case c yields a row carrying that case's maximum. */
  lemma SawEachMax(all: seq<Doc>, maxes: Maxes, rows: seq<Row>, c: int)
    requires 0 <= c < 3 && |all| >= 3 && all[|all| - 3..] == ExtraDocs(maxes)
    requires forall j :: 0 <= j < |all| ==> Row(RangeTag(all[j].g), all[j].v) in rows
    ensures SawMax(rows, maxes, c)
  {
    var d := all[|all| - 3 + c];
    assert d == ExtraDocs(maxes)[c];
    var i :| 0 <= i < |rows| && rows[i] == Row(RangeTag(d.g), d.v);
  }

  /** The scenario end to end: the row check reports no error on the scanned rows. */
  method CheckRangeRouting(docs: seq<Doc>, maxes: Maxes, rows: seq<Row>) returns (err: Option<RoutingError>)
    requires IsLong(maxes.first) && IsLong(maxes.second) && IsLong(maxes.third)
    requires forall i :: 0 <= i < |docs| ==> GeneratedDoc(docs[i], maxes)
    requires multiset(rows) == multiset(ScanAll(GroupQueries(), docs + ExtraDocs(maxes)))
    ensures err.None?
  {
    RoutingScenarioPasses(docs, maxes, rows);
    err := CheckRoutedRows(rows, maxes);
  }
}
