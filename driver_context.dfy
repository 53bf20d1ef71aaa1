/**
 * The driver context as the scenarios inspect it after a run, and the block
 * factory it hands out. Two ledgers are kept apart, as the scenarios check
 * them apart:
 *  - the context's own state: whether the driver finished, and the
 *    releasables its snapshot still reports (`assertDriverContext`);
 *  - the block factory's circuit breaker: every block allocated through the
 *    factory is charged to it, and releasing a page's blocks refunds them
 *    (the `breaker().getUsed()` check at the end of a scenario).
 */
module DriverContexts {

  function Sum(s: seq<nat>): nat
  {
    if |s| == 0 then 0 else Sum(s[..|s| - 1]) + s[|s| - 1]
  }

  lemma {:induction false} SumRemove(s: seq<nat>, i: int)
    requires 0 <= i < |s|
    ensures Sum(s[..i] + s[i + 1..]) + s[i] == Sum(s)
    decreases |s|
  {
    if i < |s| - 1 {
      var init := s[..|s| - 1];
      SumRemove(init, i);
      assert (s[..i] + s[i + 1..])[..|s| - 2] == init[..i] + init[i + 1..];
    } else {
      assert s[..i] + s[i + 1..] == s[..|s| - 1];
    }
  }

  /** A sum is zero exactly when every term is. */
  lemma {:induction false} SumZero(s: seq<nat>)
    ensures Sum(s) == 0 <==> forall i :: 0 <= i < |s| ==> s[i] == 0
  {
    if |s| > 0 {
      SumZero(s[..|s| - 1]);
      assert forall i :: 0 <= i < |s| - 1 ==> s[i] == s[..|s| - 1][i];
    }
  }

  /** The block factory of a driver context, with the circuit breaker its blocks are charged to. */
  class BlockFactory {
    /** The sizes of the blocks allocated and not yet released, in allocation order. */
    var live: seq<nat>
    var breakerUsed: nat

    /** The breaker counts exactly the bytes of the live blocks. */
    ghost predicate Valid()
      reads this
    {
      breakerUsed == Sum(live)
    }

    constructor()
      ensures Valid() && live == [] && breakerUsed == 0
    {
      live := [];
      breakerUsed := 0;
    }

    /** Allocates a block of `bytes` bytes and charges the breaker for it. */
    method NewBlock(bytes: nat)
      requires Valid()
      modifies this
      ensures Valid() && live == old(live) + [bytes]
      ensures breakerUsed == old(breakerUsed) + bytes
    {
      live := live + [bytes];
      breakerUsed := breakerUsed + bytes;
    }

    /** Releases the i-th live block and refunds its bytes. */
    method ReleaseBlock(i: nat)
      requires Valid() && i < |live|
      modifies this
      ensures Valid() && live == old(live[..i] + live[i + 1..])
      ensures breakerUsed == old(breakerUsed) - old(live[i])
    {
      SumRemove(live, i);
      breakerUsed := breakerUsed - live[i];
      live := live[..i] + live[i + 1..];
    }

    /** `page.releaseBlocks()`: releases the `n` blocks of the page built last. */
    method ReleasePage(n: nat)
      requires Valid() && n <= |live|
      modifies this
      ensures Valid() && live == old(live)[..|old(live)| - n]
    {
      var k := 0;
      while k < n
        invariant 0 <= k <= n
        invariant Valid() && live == old(live)[..|old(live)| - k]
      {
        ReleaseBlock(|live| - 1);
        k := k + 1;
      }
    }
  }

  class DriverContext {
    const blockFactory: BlockFactory
    var finished: bool
    /** The releasables the context's snapshot reports. */
    var releasables: seq<int>

    constructor(factory: BlockFactory)
      ensures blockFactory == factory && !finished && releasables == []
    {
      blockFactory := factory;
      finished := false;
      releasables := [];
    }

    method AddReleasable(r: int)
      modifies this
      ensures releasables == old(releasables) + [r] && finished == old(finished)
    {
      releasables := releasables + [r];
    }

    method RemoveReleasable(i: nat)
      requires i < |releasables|
      modifies this
      ensures releasables == old(releasables[..i] + releasables[i + 1..]) && finished == old(finished)
    {
      releasables := releasables[..i] + releasables[i + 1..];
    }

    method Finish()
      modifies this
      ensures finished && releasables == old(releasables)
    {
      finished := true;
    }

    /** `assertDriverContext`: the driver finished and its snapshot holds no releasables. */
    predicate AssertDriverContext()
      reads this
    {
      finished && |releasables| == 0
    }
  }

  /** `driverContext()`: a fresh context over a fresh block factory whose breaker is at zero. */
  method NewDriverContext() returns (ctx: DriverContext)
    ensures fresh(ctx) && fresh(ctx.blockFactory)
    ensures ctx.blockFactory.Valid() && ctx.blockFactory.live == [] && ctx.blockFactory.breakerUsed == 0
    ensures !ctx.finished && ctx.releasables == []
  {
    var factory := new BlockFactory();
    ctx := new DriverContext(factory);
  }

  /** The breaker is back at zero exactly when every block still live is empty. */
  lemma BreakerZeroIffNoLiveBytes(f: BlockFactory)
    requires f.Valid()
    ensures f.breakerUsed == 0 <==> forall i :: 0 <= i < |f.live| ==> f.live[i] == 0
  {
    SumZero(f.live);
  }

  /**
   * A run whose operators are registered and removed again, and whose consumer
   * releases the blocks of every page it receives, passes `assertDriverContext`
   * and leaves the breaker at zero.
   */
  method RunAndRelease(operators: seq<int>, pages: seq<seq<nat>>) returns (ctx: DriverContext)
    ensures ctx.AssertDriverContext()
    ensures ctx.blockFactory.Valid() && ctx.blockFactory.live == [] && ctx.blockFactory.breakerUsed == 0
  {
    ctx := NewDriverContext();
    var f := ctx.blockFactory;
    var i := 0;
    while i < |operators|
      invariant 0 <= i <= |operators|
      invariant !ctx.finished && |ctx.releasables| == i
      modifies ctx
    {
      ctx.AddReleasable(operators[i]);
      i := i + 1;
    }
    var p := 0;
    while p < |pages|
      invariant 0 <= p <= |pages|
      invariant f.Valid() && f.live == []
      modifies f
    {
      var page := pages[p];
      var j := 0;
      while j < |page|
        invariant 0 <= j <= |page|
        invariant f.Valid() && f.live == page[..j]
        modifies f
      {
        f.NewBlock(page[j]);
        assert page[..j + 1] == page[..j] + [page[j]];
        j := j + 1;
      }
      f.ReleasePage(|page|);
      p := p + 1;
    }
    while |ctx.releasables| > 0
      invariant !ctx.finished
      decreases |ctx.releasables|
      modifies ctx
    {
      ctx.RemoveReleasable(|ctx.releasables| - 1);
    }
    ctx.Finish();
  }

  /**
   * The two end-of-scenario checks are independent: a block the consumer never
   * releases leaves `assertDriverContext` passing, and only the breaker shows it.
   */
  method LeakedBlockRun(bytes: nat) returns (ctx: DriverContext)
    requires bytes > 0
    ensures ctx.AssertDriverContext()
    ensures ctx.blockFactory.Valid() && ctx.blockFactory.breakerUsed == bytes > 0
  {
    ctx := NewDriverContext();
    ctx.blockFactory.NewBlock(bytes);
    ctx.Finish();
  }
}
