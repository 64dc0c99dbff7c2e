/**
  `randomizedSelectForConnectionFunction` of randomized-selection.js: the
  baseline connection selector, which pops peers from a shuffled pool of
  tried peers and a shuffled pool of new peers.

  Randomness is a parameter. Each call of `lodash.shuffle` is a function with
  `IsShuffle`, and `coin(i)` is the outcome of `Math.random() < r` at draw
  `i`, so every property below holds for every order and every outcome. The
  pops do not look inside the entries, so the draw machinery is stated for
  any element type.
 */
module ConnectionSelection {
  import opened Collections
  import opened Peers

  /** The two shuffled pools the connection selector pops from. */
  datatype Pools<T> = Pools(triedPool: seq<T>, newPool: seq<T>)
  {
    function Size(): nat
    {
      |triedPool| + |newPool|
    }

    ghost function Contents(): multiset<T>
    {
      multiset(triedPool) + multiset(newPool)
    }
  }

  /** One draw: the entry returned, the pool it was popped from, and the pools left afterwards. */
  datatype Draw<T> = Draw(peer: T, fromTried: bool, rest: Pools<T>)

  /**
    One iteration of the `map` callback: pop the tried pool when it is not
    empty and the coin says "tried"; otherwise pop the new pool when it is not
    empty; otherwise pop the tried pool. `pop` takes the last entry.
   */
  function DrawOne<T>(pools: Pools<T>, coin: bool): (d: Draw<T>)
    requires pools.Size() > 0
    ensures d.fromTried <==> (pools.triedPool != [] && coin) || pools.newPool == []
  {
    var tried, untried := pools.triedPool, pools.newPool;
    if tried != [] && coin then
      Draw(tried[|tried| - 1], true, Pools(tried[..|tried| - 1], untried))
    else if untried != [] then
      Draw(untried[|untried| - 1], false, Pools(tried, untried[..|untried| - 1]))
    else
      Draw(tried[|tried| - 1], true, Pools(tried[..|tried| - 1], untried))
  }

  /** A draw pops the last entry of the pool it names and leaves the other pool as it was. */
  lemma DrawOnePops<T>(pools: Pools<T>, coin: bool)
    requires pools.Size() > 0
    ensures var d := DrawOne(pools, coin);
            && (d.fromTried ==> pools.triedPool == d.rest.triedPool + [d.peer] && d.rest.newPool == pools.newPool)
            && (!d.fromTried ==> pools.newPool == d.rest.newPool + [d.peer] && d.rest.triedPool == pools.triedPool)
  {
  }

  /** Where the draws stand: the entries drawn so far, in order, and the pools left. */
  datatype Progress<T> = Progress(drawn: seq<T>, left: Pools<T>)

  /**
    The state after the first `n` iterations of the `map` callback; draw `i`
    uses `coin(i)`. The pools still hold `pools.Size() - n` entries, so while
    `n` stays within the limit no pop yields `undefined`.
   */
  function Run<T>(pools: Pools<T>, coin: nat -> bool, n: nat): (p: Progress<T>)
    requires n <= pools.Size()
    ensures |p.drawn| == n
    ensures p.left.Size() == pools.Size() - n
  {
    if n == 0 then Progress([], pools)
    else
      var before := Run(pools, coin, n - 1);
      var d := DrawOne(before.left, coin(n - 1));
      Progress(before.drawn + [d.peer], d.rest)
  }

  /** A draw moves one entry out of the pools: nothing is duplicated and nothing is lost. */
  lemma DrawOneConserves<T>(pools: Pools<T>, coin: bool)
    requires pools.Size() > 0
    ensures var d := DrawOne(pools, coin); pools.Contents() == d.rest.Contents() + multiset{d.peer}
  {
    DrawOnePops(pools, coin);
    var d := DrawOne(pools, coin);
    if d.fromTried {
      assert multiset(pools.triedPool) == multiset(d.rest.triedPool) + multiset{d.peer};
    } else {
      assert multiset(pools.newPool) == multiset(d.rest.newPool) + multiset{d.peer};
    }
  }

  /** Moving one entry from the pools to the end of the draws keeps the total. */
  lemma MoveToDrawn<T>(drawn: seq<T>, x: T, before: multiset<T>, after: multiset<T>, total: multiset<T>)
    requires multiset(drawn) + before == total
    requires before == after + multiset{x}
    ensures multiset(drawn + [x]) + after == total
  {
  }

  /**
    Together, the drawn entries and the pools left behind are exactly the
    pools the draws started from.
   */
  lemma {:induction false} RunConserves<T>(pools: Pools<T>, coin: nat -> bool, n: nat)
    requires n <= pools.Size()
    ensures multiset(Run(pools, coin, n).drawn) + Run(pools, coin, n).left.Contents() == pools.Contents()
  {
    if n > 0 {
      var before := Run(pools, coin, n - 1);
      var d := DrawOne(before.left, coin(n - 1));
      RunConserves(pools, coin, n - 1);
      DrawOneConserves(before.left, coin(n - 1));
      MoveToDrawn(before.drawn, d.peer, before.left.Contents(), d.rest.Contents(), pools.Contents());
    }
  }

  /** Hence the draws are a sub-multiset of the pools they are taken from. */
  lemma DrawsFromPools<T>(pools: Pools<T>, coin: nat -> bool, n: nat)
    requires n <= pools.Size()
    ensures multiset(Run(pools, coin, n).drawn) <= pools.Contents()
  {
    RunConserves(pools, coin, n);
  }

  /**
    Draw `j` is the pop made on the pools the first `j` draws left, and so
    it comes from the new pool exactly when that pool is not empty and either
    the tried pool is empty or the coin says "not tried".
   */
  lemma {:induction false} DrawSource<T>(pools: Pools<T>, coin: nat -> bool, n: nat, j: nat)
    requires j < n <= pools.Size()
    ensures var before := Run(pools, coin, j).left;
            var d := DrawOne(before, coin(j));
            && Run(pools, coin, n).drawn[j] == d.peer
            && (!d.fromTried <==> before.newPool != [] && (before.triedPool == [] || !coin(j)))
  {
    if j < n - 1 {
      DrawSource(pools, coin, n - 1, j);
    }
  }

  /**
    While every coin says "tried" and the tried pool lasts, the draws take
    the tried pool from its end: draw `i` is the entry `i` places from the
    end, and the new pool is untouched.
   */
  lemma {:induction false} AllTriedCoinsDrawTried<T>(pools: Pools<T>, coin: nat -> bool, n: nat)
    requires n <= |pools.triedPool|
    requires forall i :: 0 <= i < n ==> coin(i)
    ensures Run(pools, coin, n).left == Pools(pools.triedPool[..|pools.triedPool| - n], pools.newPool)
    ensures forall i :: 0 <= i < n ==> Run(pools, coin, n).drawn[i] == pools.triedPool[|pools.triedPool| - 1 - i]
  {
    if n > 0 {
      AllTriedCoinsDrawTried(pools, coin, n - 1);
      var tried := pools.triedPool;
      var before := Run(pools, coin, n - 1);
      assert before.left.triedPool == tried[..|tried| - (n - 1)];
      var d := DrawOne(before.left, coin(n - 1));
      assert d.fromTried;
      assert d.peer == tried[|tried| - n];
      assert d.rest.triedPool == tried[..|tried| - n];
    }
  }

  /**
    The selector itself: `peerLimit` is `None` when the input has no limit.
    A negative limit gives nothing, a missing limit or one that covers both
    lists gives the new peers followed by the tried peers, and otherwise the
    shuffled pools are popped, one peer per draw.
   */
  method SelectForConnection(
    triedPeers: seq<Peer>, newPeers: seq<Peer>, peerLimit: Option<int>,
    shuffleTried: seq<Peer> -> seq<Peer>, shuffleNew: seq<Peer> -> seq<Peer>,
    coin: nat -> bool)
    returns (selected: seq<Peer>)
    requires IsShuffle(shuffleTried) && IsShuffle(shuffleNew)
    ensures peerLimit.Some? && peerLimit.value < 0 ==> selected == []
    ensures peerLimit.None? || peerLimit.value >= |triedPeers| + |newPeers| ==> selected == newPeers + triedPeers
    ensures peerLimit.Some? && 0 <= peerLimit.value < |triedPeers| + |newPeers| ==>
      && |selected| == peerLimit.value
      && multiset(selected) <= multiset(triedPeers) + multiset(newPeers)
      && selected == Run(Pools(shuffleTried(triedPeers), shuffleNew(newPeers)), coin, peerLimit.value).drawn
  {
    if peerLimit.Some? && peerLimit.value < 0 {
      return [];
    }
    if peerLimit.None? || peerLimit.value >= |triedPeers| + |newPeers| {
      return newPeers + triedPeers;
    }
    var limit := peerLimit.value;
    var shuffledTriedPeers := shuffleTried(triedPeers);
    var shuffledNewPeers := shuffleNew(newPeers);
    ghost var start: Pools<Peer> := Pools(shuffledTriedPeers, shuffledNewPeers);
    selected := [];
    var i := 0;
    while i < limit
      invariant 0 <= i <= limit
      invariant Run(start, coin, i) == Progress(selected, Pools(shuffledTriedPeers, shuffledNewPeers))
    {
      var peer: Peer;
      if shuffledTriedPeers != [] && coin(i) {
        peer := shuffledTriedPeers[|shuffledTriedPeers| - 1];
        shuffledTriedPeers := shuffledTriedPeers[..|shuffledTriedPeers| - 1];
      } else if shuffledNewPeers != [] {
        peer := shuffledNewPeers[|shuffledNewPeers| - 1];
        shuffledNewPeers := shuffledNewPeers[..|shuffledNewPeers| - 1];
      } else {
        peer := shuffledTriedPeers[|shuffledTriedPeers| - 1];
        shuffledTriedPeers := shuffledTriedPeers[..|shuffledTriedPeers| - 1];
      }
      selected := selected + [peer];
      i := i + 1;
    }
    DrawsFromPools(start, coin, limit);
  }
}
