/**
 * The contract of the row-in-table lookup as the hash-lookup scenario pins it:
 * every probe row comes out once, in order, with its value echoed in block 0
 * and its ordinal in the key table (or null) in block 1. The operator's own
 * hashing is not modelled; only what its output must be.
 */
module RowLookup {
  import opened Wrappers
  import PrimeTable

  /** The two output blocks: the echoed probe values and their table ordinals. */
  datatype LookupPage = LookupPage(values: seq<int>, ords: seq<Option<int>>)

  /**
   * The row of the key table holding v. The scenario's table has no duplicate
   * keys; for a table with duplicates the first matching row is chosen.
   */
  function RowOf(table: seq<int>, v: int): (r: Option<int>)
    ensures r.None? <==> v !in table
    ensures r.Some? ==> 0 <= r.value < |table| && table[r.value] == v
    ensures r.Some? ==> forall j :: 0 <= j < r.value ==> table[j] != v
  {
    if |table| == 0 then None
    else if table[0] == v then Some(0)
    else match RowOf(table[1..], v)
      case None => None
      case Some(i) => Some(i + 1)
  }

  /** What the lookup operator emits for one probe page. */
  function LookupRows(table: seq<int>, probes: seq<int>): (page: LookupPage)
    ensures page.values == probes
    ensures |page.ords| == |probes|
    ensures forall i :: 0 <= i < |probes| ==>
              (page.ords[i].None? <==> probes[i] !in table)
    ensures forall i :: 0 <= i < |probes| && page.ords[i].Some? ==>
              0 <= page.ords[i].value < |table| && table[page.ords[i].value] == probes[i]
  {
    LookupPage(probes, seq(|probes|, i requires 0 <= i < |probes| => RowOf(table, probes[i])))
  }

  /** Page boundaries do not matter: looking up a + b is looking up a, then b. */
  lemma LookupConcat(table: seq<int>, a: seq<int>, b: seq<int>)
    ensures LookupRows(table, a + b).values == LookupRows(table, a).values + LookupRows(table, b).values
    ensures LookupRows(table, a + b).ords == LookupRows(table, a).ords + LookupRows(table, b).ords
  {
    var ab, pa, pb := LookupRows(table, a + b), LookupRows(table, a), LookupRows(table, b);
    forall i | 0 <= i < |a + b|
      ensures ab.ords[i] == (pa.ords + pb.ords)[i]
    {
      if i < |a| {
        assert (a + b)[i] == a[i];
      } else {
        assert (a + b)[i] == b[i - |a|];
      }
    }
  }

  function Flatten(pages: seq<seq<int>>): (r: seq<int>)
  {
    if |pages| == 0 then [] else pages[0] + Flatten(pages[1..])
  }

  /** The consumer's accumulation of blocks 0 and 1 over the output pages. */
  function CollectPages(table: seq<int>, pages: seq<seq<int>>): (r: LookupPage)
  {
    if |pages| == 0 then LookupPage([], [])
    else
      var first, rest := LookupRows(table, pages[0]), CollectPages(table, pages[1..]);
      LookupPage(first.values + rest.values, first.ords + rest.ords)
  }

  /** However the probes are cut into pages, the collected blocks are the lookup of all probes. */
  lemma {:induction false} CollectPagesIsLookup(table: seq<int>, pages: seq<seq<int>>)
    ensures CollectPages(table, pages) == LookupRows(table, Flatten(pages))
  {
    if |pages| > 0 {
      CollectPagesIsLookup(table, pages[1..]);
      LookupConcat(table, pages[0], Flatten(pages[1..]));
    }
  }

  /**
   * The scenario's oracle: for each probe value, the expected echo and the
   * expected ordinal `primeOrds.get(v)`.
   */
  method ExpectedColumns(ords: map<int, int>, values: seq<int>)
    returns (expectedValues: seq<int>, expectedOrds: seq<Option<int>>)
    ensures expectedValues == values
    ensures |expectedOrds| == |values|
    ensures forall i :: 0 <= i < |values| ==>
              (expectedOrds[i].Some? <==> values[i] in ords) &&
              (expectedOrds[i].Some? ==> expectedOrds[i].value == ords[values[i]])
  {
    expectedValues, expectedOrds := [], [];
    var i := 0;
    while i < |values|
      invariant 0 <= i <= |values|
      invariant expectedValues == values[..i]
      invariant |expectedOrds| == i
      invariant forall k :: 0 <= k < i ==> expectedOrds[k] == Get(ords, values[k])
    {
      var v := values[i];
      expectedValues := expectedValues + [v];
      expectedOrds := expectedOrds + [Get(ords, v)];
      i := i + 1;
    }
  }

  /**
   * With a table whose ordinal map numbers its rows densely, the operator's
   * ordinal column is exactly the oracle's `ords.get(v)` column.
   */
  lemma LookupAgreesWithOrdinals(table: seq<int>, ords: map<int, int>, probes: seq<int>)
    requires PrimeTable.DenseOrdinals(table, ords)
    ensures forall i :: 0 <= i < |probes| ==> LookupRows(table, probes).ords[i] == Get(ords, probes[i])
  {
    var page := LookupRows(table, probes);
    forall i | 0 <= i < |probes|
      ensures page.ords[i] == Get(ords, probes[i])
    {
      if page.ords[i].Some? {
        assert ords[table[page.ords[i].value]] == page.ords[i].value;
      } else {
        assert probes[i] !in ords;
      }
    }
  }

  /**
   * The hash-lookup scenario end to end: build the prime table with the sieve,
   * compute the expected columns, run the lookup over the probe values cut into
   * pages, and compare. Both comparisons succeed for every choice of probes.
   */
  method CheckHashLookup(pages: seq<seq<int>>) returns (valuesEqual: bool, ordsEqual: bool)
    ensures valuesEqual && ordsEqual
  {
    var primes, ords := PrimeTable.BuildPrimeTable(PrimeTable.SieveSize);
    var values := Flatten(pages);
    var expectedValues, expectedOrds := ExpectedColumns(ords, values);
    var actual := CollectPages(primes, pages);
    CollectPagesIsLookup(primes, pages);
    LookupAgreesWithOrdinals(primes, ords, values);
    valuesEqual := actual.values == expectedValues;
    ordsEqual := actual.ords == expectedOrds;
  }
}
