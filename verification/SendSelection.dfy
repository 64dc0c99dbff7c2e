/**
  `randomizedSelectForSendFunction` of randomized-selection.js: the baseline
  send selector, which splits the shuffled peers by the direction of their
  connection and takes about half the limit from the direction with fewer
  peers. The call of `lodash.shuffle` is the parameter `shuffle`.
 */
module SendSelection {
  import opened Collections
  import opened Peers

  /** `Math.round(peerLimit / 2)`: JavaScript rounds a half up. */
  function HalfLimit(peerLimit: nat): (h: nat)
    ensures h <= peerLimit
    ensures 2 * h == peerLimit || 2 * h == peerLimit + 1
  {
    (peerLimit + 1) / 2
  }

  /**
    The two slices of the send selector: up to half the limit from the
    shortest list, then what is left of the limit from the longest one.
   */
  function ShortestFirst<T>(shortest: seq<T>, longest: seq<T>, limit: nat): (r: seq<T>)
    ensures |r| <= limit
  {
    var first := Take(shortest, HalfLimit(limit));
    first + Take(longest, limit - |first|)
  }

  /** When the shortest list really is no longer, the two slices fill the limit as far as the lists allow. */
  lemma ShortestFirstLength<T>(shortest: seq<T>, longest: seq<T>, limit: nat)
    requires |shortest| <= |longest|
    ensures |ShortestFirst(shortest, longest, limit)| == Min(limit, |shortest| + |longest|)
  {
  }

  /** The slices use no entry more often than the two lists hold it. */
  lemma ShortestFirstSubMultiset<T>(shortest: seq<T>, longest: seq<T>, limit: nat)
    ensures multiset(ShortestFirst(shortest, longest, limit)) <= multiset(shortest) + multiset(longest)
  {
    var first := Take(shortest, HalfLimit(limit));
    var second := Take(longest, limit - |first|);
    TakeIsSubMultiset(shortest, HalfLimit(limit));
    TakeIsSubMultiset(longest, limit - |first|);
    assert multiset(first + second) == multiset(first) + multiset(second);
  }

  /**
    When the entries of the two lists are told apart by `f` and `g`, `f`
    picks out the part taken from the shortest list and `g` the part taken
    from the longest one.
   */
  lemma ShortestFirstCounts<T(!new)>(f: T -> bool, g: T -> bool, shortest: seq<T>, longest: seq<T>, limit: nat)
    requires forall x :: x in shortest ==> f(x) && !g(x)
    requires forall x :: x in longest ==> g(x) && !f(x)
    ensures var r, first := ShortestFirst(shortest, longest, limit), Min(HalfLimit(limit), |shortest|);
            && |Filter(f, r)| == first
            && |Filter(g, r)| == Min(limit - first, |longest|)
  {
    var first := Take(shortest, HalfLimit(limit));
    var second := Take(longest, limit - |first|);
    TakeMembers(shortest, HalfLimit(limit));
    TakeMembers(longest, limit - |first|);
    FilterKeepsFirstRun(f, first, second);
    FilterKeepsSecondRun(g, first, second);
  }

  /** A peer whose `kind` is one of the two directions the send selector picks from. */
  predicate HasDirection(p: Peer)
  {
    IsOutbound(p) || IsInbound(p)
  }

  /** Splitting by direction loses nothing that has a direction and uses nothing twice. */
  lemma DirectionsPartition(s: seq<Peer>, t: seq<Peer>)
    requires multiset(s) == multiset(t)
    ensures multiset(Filter(IsOutbound, s)) + multiset(Filter(IsInbound, s)) == multiset(Filter(HasDirection, t))
  {
    var outbound, inbound, directed := Filter(IsOutbound, s), Filter(IsInbound, s), Filter(HasDirection, t);
    FilterMultiplicity(IsOutbound, s);
    FilterMultiplicity(IsInbound, s);
    FilterMultiplicity(HasDirection, t);
    DirectionsExclusive();
    forall p ensures (multiset(outbound) + multiset(inbound))[p] == multiset(directed)[p] {
      assert multiset(outbound)[p] == if IsOutbound(p) then multiset(s)[p] else 0;
      assert multiset(inbound)[p] == if IsInbound(p) then multiset(s)[p] else 0;
      assert multiset(directed)[p] == if HasDirection(p) then multiset(t)[p] else 0;
    }
  }

  /**
    The send selection on a list already shuffled: the direction with fewer
    peers (inbound on a tie) gets up to half the limit, the other direction
    the rest, and the two slices are concatenated.
   */
  function SplitByDirection(shuffled: seq<Peer>, limit: nat): (selected: seq<Peer>)
    ensures |selected| <= limit
  {
    var outboundPeers := Filter(IsOutbound, shuffled);
    var inboundPeers := Filter(IsInbound, shuffled);
    if |outboundPeers| < |inboundPeers| then ShortestFirst(outboundPeers, inboundPeers, limit)
    else ShortestFirst(inboundPeers, outboundPeers, limit)
  }

  /** The split takes each directed peer at most as often as a reordering `peers` of the list holds it. */
  lemma SplitSubMultiset(shuffled: seq<Peer>, peers: seq<Peer>, limit: nat)
    requires multiset(shuffled) == multiset(peers)
    ensures multiset(SplitByDirection(shuffled, limit)) <= multiset(Filter(HasDirection, peers))
  {
    var outboundPeers := Filter(IsOutbound, shuffled);
    var inboundPeers := Filter(IsInbound, shuffled);
    DirectionsPartition(shuffled, peers);
    if |outboundPeers| < |inboundPeers| {
      ShortestFirstSubMultiset(outboundPeers, inboundPeers, limit);
    } else {
      ShortestFirstSubMultiset(inboundPeers, outboundPeers, limit);
    }
  }

  /**
    `randomizedSelectForSendFunction`. Without a limit `Math.round` yields
    `NaN`, `slice(0, NaN)` is empty and so is the result.
   */
  function SelectForSend(peers: seq<Peer>, peerLimit: Option<nat>, shuffle: seq<Peer> -> seq<Peer>)
    : (selected: seq<Peer>)
    requires IsShuffle(shuffle)
    ensures peerLimit.None? ==> selected == []
    ensures peerLimit.Some? ==> multiset(selected) <= multiset(Filter(HasDirection, peers))
    ensures forall p :: p in selected ==> p in peers && HasDirection(p)
  {
    match peerLimit
    case None => []
    case Some(limit) =>
      var selected := SplitByDirection(shuffle(peers), limit);
      SplitSubMultiset(shuffle(peers), peers, limit);
      SubMultisetMembers(selected, Filter(HasDirection, peers));
      FilterMembers(HasDirection, peers);
      selected
  }

  /**
    With a limit the send selection has `min(limit, d)` peers, `d` being the
    number of peers that have a direction: the limit is reached whenever
    there are enough of them.
   */
  lemma SendLength(peers: seq<Peer>, limit: nat, shuffle: seq<Peer> -> seq<Peer>)
    requires IsShuffle(shuffle)
    ensures |SelectForSend(peers, Some(limit), shuffle)| == Min(limit, |Filter(HasDirection, peers)|)
  {
    var shuffled := shuffle(peers);
    var outboundPeers, inboundPeers := Filter(IsOutbound, shuffled), Filter(IsInbound, shuffled);
    DirectionsPartition(shuffled, peers);
    assert |Filter(HasDirection, peers)| == |outboundPeers| + |inboundPeers| by {
      assert |multiset(outboundPeers) + multiset(inboundPeers)| == |multiset(Filter(HasDirection, peers))|;
    }
    if |outboundPeers| < |inboundPeers| {
      ShortestFirstLength(outboundPeers, inboundPeers, limit);
    } else {
      ShortestFirstLength(inboundPeers, outboundPeers, limit);
    }
  }

  /** Each direction list holds only peers of that direction, and so none of the other. */
  lemma DirectionListsApart(shuffled: seq<Peer>)
    ensures forall p :: p in Filter(IsOutbound, shuffled) ==> IsOutbound(p) && !IsInbound(p)
    ensures forall p :: p in Filter(IsInbound, shuffled) ==> IsInbound(p) && !IsOutbound(p)
  {
    FilterMembers(IsOutbound, shuffled);
    FilterMembers(IsInbound, shuffled);
  }

  /**
    How many outbound and how many inbound peers a send selection holds,
    given how many of each there are: the direction with fewer peers
    (inbound on a tie) contributes `min(h, fewer)`, `h` being the half limit
    rounded up, and the other direction fills the rest of the limit as far
    as it can. Together they reach the limit whenever there are enough peers.
   */
  function SendCounts(outbound: nat, inbound: nat, limit: nat): (counts: (int, int))
    ensures 0 <= counts.0 <= outbound && 0 <= counts.1 <= inbound
    ensures counts.0 + counts.1 == Min(limit, outbound + inbound)
  {
    var h := HalfLimit(limit);
    if outbound < inbound then (Min(h, outbound), Min(limit - Min(h, outbound), inbound))
    else (Min(limit - Min(h, inbound), outbound), Min(h, inbound))
  }

  /** The per-direction counts of the split of a shuffled list are the ones `SendCounts` gives. */
  lemma SplitDirectionCounts(shuffled: seq<Peer>, limit: nat)
    ensures var selected := SplitByDirection(shuffled, limit);
            (|Filter(IsOutbound, selected)|, |Filter(IsInbound, selected)|)
            == SendCounts(|Filter(IsOutbound, shuffled)|, |Filter(IsInbound, shuffled)|, limit)
  {
    var outboundPeers, inboundPeers := Filter(IsOutbound, shuffled), Filter(IsInbound, shuffled);
    DirectionListsApart(shuffled);
    if |outboundPeers| < |inboundPeers| {
      ShortestFirstCounts(IsOutbound, IsInbound, outboundPeers, inboundPeers, limit);
    } else {
      ShortestFirstCounts(IsInbound, IsOutbound, inboundPeers, outboundPeers, limit);
    }
  }

  /** The same counts in terms of the input: shuffling does not change how many peers each direction has. */
  lemma SendDirectionCounts(peers: seq<Peer>, limit: nat, shuffle: seq<Peer> -> seq<Peer>)
    requires IsShuffle(shuffle)
    ensures var selected := SelectForSend(peers, Some(limit), shuffle);
            (|Filter(IsOutbound, selected)|, |Filter(IsInbound, selected)|)
            == SendCounts(|Filter(IsOutbound, peers)|, |Filter(IsInbound, peers)|, limit)
  {
    var shuffled := shuffle(peers);
    FilterCountInvariant(IsOutbound, shuffled, peers);
    FilterCountInvariant(IsInbound, shuffled, peers);
    SplitDirectionCounts(shuffled, limit);
  }

  /** With 3 outbound and 7 inbound peers and a limit of 4, two peers of each direction are sent to. */
  lemma SendExampleThreeOutboundSevenInbound(peers: seq<Peer>, shuffle: seq<Peer> -> seq<Peer>)
    requires IsShuffle(shuffle)
    requires |Filter(IsOutbound, peers)| == 3 && |Filter(IsInbound, peers)| == 7
    ensures var selected := SelectForSend(peers, Some(4), shuffle);
            |Filter(IsOutbound, selected)| == 2 && |Filter(IsInbound, selected)| == 2
  {
    SendDirectionCounts(peers, 4, shuffle);
  }
}
