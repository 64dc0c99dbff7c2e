/**
  `randomizedSelectForRequestFunction` of randomized-selection.js: the
  baseline request selector, a shuffle of the peers cut to the limit.
  The call of `lodash.shuffle` is the parameter `shuffle`.
 */
module RequestSelection {
  import opened Collections
  import opened Peers

  /**
    No peers give no selection; without a limit the whole shuffled list is
    returned, with one its first `peerLimit` entries.
   */
  function SelectForRequest(peers: seq<Peer>, peerLimit: Option<nat>, shuffle: seq<Peer> -> seq<Peer>)
    : (selected: seq<Peer>)
    requires IsShuffle(shuffle)
    ensures peers == [] ==> selected == []
    ensures peerLimit.None? ==> multiset(selected) == multiset(peers)
    ensures peerLimit.Some? ==> |selected| == Min(peerLimit.value, |peers|)
    ensures peers != [] ==> selected <= shuffle(peers)
    ensures multiset(selected) <= multiset(peers)
  {
    if |peers| == 0 then []
    else
      var shuffled := shuffle(peers);
      match peerLimit
      case None => shuffled
      case Some(limit) =>
        TakeIsSubMultiset(shuffled, limit);
        Take(shuffled, limit)
  }
}
