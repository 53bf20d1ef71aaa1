/**
 * The key table of the row-lookup scenario: a sieve of Eratosthenes over a
 * `boolean[100]` that appends each prime to the table block and records its
 * ordinal (the table's size when it was put) in an ordered map.
 */
module PrimeTable {

  /** Length of the sieve array; the table holds exactly the primes below it. */
  const SieveSize := 100

  /**
   * n is a multiple of d: it is reached from 0 by adding d repeatedly, the way
   * the sieve's inner loop walks `m += prime`.
   */
  ghost predicate IsMultiple(n: int, d: int)
    requires d > 0
    decreases n
  {
    n == 0 || (n >= d && IsMultiple(n - d, d))
  }

  /** No d with 2 <= d < bound divides n. */
  ghost predicate NoDivisorBelow(n: int, bound: int) {
    forall d :: 2 <= d < bound ==> !IsMultiple(n, d)
  }

  ghost predicate IsPrime(p: int) {
    p >= 2 && NoDivisorBelow(p, p)
  }

  /** The primes p with 2 <= p < n, in ascending order. */
  ghost function PrimesBelow(n: int): (r: seq<int>)
    ensures forall i :: 0 <= i < |r| ==> 2 <= r[i] < n && IsPrime(r[i])
  {
    if n <= 2 then [] else PrimesBelow(n - 1) + (if IsPrime(n - 1) then [n - 1] else [])
  }

  ghost predicate StrictlyIncreasing(s: seq<int>) {
    forall i, j :: 0 <= i < j < |s| ==> s[i] < s[j]
  }

  /** The table lists every prime below n, in strictly ascending order. */
  lemma {:induction false} PrimesBelowExactly(n: int)
    ensures StrictlyIncreasing(PrimesBelow(n))
    ensures forall x :: x in PrimesBelow(n) <==> 2 <= x < n && IsPrime(x)
  {
    if n > 2 {
      PrimesBelowExactly(n - 1);
    }
  }

  /** Tables built for smaller bounds are prefixes of tables built for larger ones. */
  lemma {:induction false} PrimesBelowPrefix(m: int, n: int)
    requires m <= n
    decreases n - m
    ensures |PrimesBelow(m)| <= |PrimesBelow(n)|
    ensures PrimesBelow(m) == PrimesBelow(n)[..|PrimesBelow(m)|]
  {
    if m < n {
      PrimesBelowPrefix(m, n - 1);
    }
  }

  /** Dense ordinals: the i-th prime has exactly i primes below it. */
  lemma PrimeOrdinalIsCount(n: int, i: int)
    requires 0 <= i < |PrimesBelow(n)|
    ensures |PrimesBelow(PrimesBelow(n)[i])| == i
  {
    var s := PrimesBelow(n);
    var p := s[i];
    PrimesBelowExactly(n);
    PrimesBelowPrefix(p + 1, n);
    assert PrimesBelow(p + 1) == PrimesBelow(p) + [p];
    var k := |PrimesBelow(p)|;
    assert s[k] == PrimesBelow(p + 1)[k] == p;
  }

  /** Sums of multiples of d are multiples of d. */
  lemma {:induction false} MultipleAdd(a: int, b: int, d: int)
    requires d > 0 && IsMultiple(a, d) && IsMultiple(b, d)
    ensures IsMultiple(a + b, d)
    decreases b
  {
    if b != 0 {
      MultipleAdd(a, b - d, d);
    }
  }

  /** A multiple of a multiple of d is a multiple of d. */
  lemma {:induction false} MultipleTransitive(d: int, k: int, j: int)
    requires d > 0 && k > 0
    requires IsMultiple(k, d) && IsMultiple(j, k)
    ensures IsMultiple(j, d)
    decreases j
  {
    if j != 0 {
      MultipleTransitive(d, k, j - k);
      MultipleAdd(j - k, k, d);
    }
  }

  /** Between two consecutive multiples of k there is no multiple of k. */
  lemma {:induction false} NoMultipleBetween(m: int, k: int, j: int)
    requires k > 0 && IsMultiple(m, k) && m < j < m + k
    ensures !IsMultiple(j, k)
    decreases m
  {
    if m != 0 {
      NoMultipleBetween(m - k, k, j - k);
    }
  }

  /** Raising the bound by one adds exactly the candidate divisor k. */
  lemma NoDivisorBelowStep(j: int, k: int)
    requires k >= 2
    ensures NoDivisorBelow(j, k + 1) <==> NoDivisorBelow(j, k) && !IsMultiple(j, k)
  {
  }

  /** A composite's multiples were crossed out by one of its smaller divisors. */
  lemma CompositeAddsNoDivisor(k: int, j: int)
    requires k >= 2 && !NoDivisorBelow(k, k)
    requires NoDivisorBelow(j, k)
    ensures NoDivisorBelow(j, k + 1)
  {
    if IsMultiple(j, k) {
      var d :| 2 <= d < k && IsMultiple(k, d);
      MultipleTransitive(d, k, j);
      assert false;
    }
  }

  /** The sieve invariant: from `bound` on, a cell is set exactly when no divisor below `bound` was found. */
  ghost predicate SievedFrom(cells: seq<bool>, from: int, bound: int) {
    forall j :: 0 <= from <= j < |cells| ==> (cells[j] <==> NoDivisorBelow(j, bound))
  }

  /** Before any candidate, every cell from 2 on is set and no number has a divisor below 2. */
  lemma FreshSieve(cells: seq<bool>)
    requires forall j :: 2 <= j < |cells| ==> cells[j]
    ensures SievedFrom(cells, 2, 2)
  {
  }

  /** Skipping a composite keeps the invariant: its multiples were already crossed out. */
  lemma SkipComposite(cells: seq<bool>, k: int)
    requires 2 <= k < |cells| && SievedFrom(cells, k, k) && !cells[k]
    ensures SievedFrom(cells, k + 1, k + 1)
  {
    forall j | k < j < |cells|
      ensures cells[j] <==> NoDivisorBelow(j, k + 1)
    {
      if NoDivisorBelow(j, k) {
        CompositeAddsNoDivisor(k, j);
      }
    }
  }

  /** Crossing out the multiples of a prime keeps the invariant. */
  lemma CrossedOutPrime(before: seq<bool>, after: seq<bool>, k: int)
    requires 2 <= k < |before| == |after| && SievedFrom(before, k, k)
    requires forall j :: 0 <= j < |after| ==> after[j] == (before[j] && !(k < j && IsMultiple(j, k)))
    ensures SievedFrom(after, k + 1, k + 1)
  {
    forall j | k < j < |after|
      ensures after[j] <==> NoDivisorBelow(j, k + 1)
    {
      NoDivisorBelowStep(j, k);
    }
  }

  /** The ordinal map gives the i-th table entry the ordinal i, and has no other keys. */
  ghost predicate DenseOrdinals(table: seq<int>, ords: map<int, int>) {
    && (forall p :: p in ords <==> p in table)
    && (forall i :: 0 <= i < |table| ==> ords[table[i]] == i)
  }

  /**
   * Appends a prime not yet in the table to the table block and records its
   * ordinal: `primeOrds.put(prime, primeOrds.size())`.
   */
  method AppendPrime(table: seq<int>, ords: map<int, int>, p: int) returns (table': seq<int>, ords': map<int, int>)
    requires DenseOrdinals(table, ords) && |ords| == |table| && p !in table
    ensures table' == table + [p] && ords' == ords[p := |table|]
    ensures DenseOrdinals(table', ords') && |ords'| == |table'|
  {
    assert p !in ords;
    table' := table + [p];
    ords' := ords[p := |ords|];
  }

  /** At candidate k, a set cell means k is the next prime, a cleared one that the table stays as it is. */
  lemma TableStep(cells: seq<bool>, k: int)
    requires 2 <= k < |cells| && SievedFrom(cells, k, k)
    ensures PrimesBelow(k + 1) == PrimesBelow(k) + (if cells[k] then [k] else [])
    ensures cells[k] ==> k !in PrimesBelow(k)
  {
    assert cells[k] <==> IsPrime(k);
  }

  /** The inner loop: crosses out every multiple of prime above prime itself. */
  method CrossOutMultiples(sieve: array<bool>, prime: int)
    requires 2 <= prime < sieve.Length
    modifies sieve
    ensures forall j :: 0 <= j < sieve.Length ==>
              sieve[j] == (old(sieve[j]) && !(prime < j && IsMultiple(j, prime)))
  {
    var m := prime + prime;
    while m < sieve.Length
      invariant prime + prime <= m && IsMultiple(m, prime)
      invariant forall j :: 0 <= j < sieve.Length ==>
                  sieve[j] == (old(sieve[j]) && !(prime < j < m && IsMultiple(j, prime)))
    {
      forall j | m < j < m + prime
        ensures !IsMultiple(j, prime)
      {
        NoMultipleBetween(m, prime, j);
      }
      sieve[m] := false;
      m := m + prime;
    }
  }

  /**
   * Runs the sieve over a `boolean[size]` and returns the table block (the
   * primes in the order they were appended) and the prime-to-ordinal map.
   */
  method BuildPrimeTable(size: int) returns (primes: seq<int>, ords: map<int, int>)
    requires size >= 2
    ensures primes == PrimesBelow(size)
    ensures forall p :: p in ords <==> p in primes
    ensures forall i :: 0 <= i < |primes| ==> ords[primes[i]] == i
  {
    var sieve := new bool[size](_ => true);
    sieve[0] := false;
    sieve[1] := false;
    FreshSieve(sieve[..]);
    primes := [];
    ords := map[];
    var prime := 2;
    while prime < sieve.Length
      invariant 2 <= prime <= sieve.Length
      invariant primes == PrimesBelow(prime)
      invariant DenseOrdinals(primes, ords) && |ords| == |primes|
      invariant SievedFrom(sieve[..], prime, prime)
    {
      TableStep(sieve[..], prime);
      if !sieve[prime] {
        SkipComposite(sieve[..], prime);
      } else {
        primes, ords := AppendPrime(primes, ords, prime);
        ghost var before := sieve[..];
        CrossOutMultiples(sieve, prime);
        CrossedOutPrime(before, sieve[..], prime);
      }
      prime := prime + 1;
    }
  }
}
