/**
  The module-routing selectors of index.js. An action or event name of the
  form `module:rest` is routed to the peers that advertise `module`; a name
  without a module prefix goes to the network's own default selector, which
  is a function parameter here. `lodash.shuffle` is the parameter `shuffle`
  and `Math.random()` the parameter `random`, a real in [0, 1).
 */
module Interchain {
  import opened Collections
  import opened Peers

  /** `s.indexOf(c)`: the position of the first `c` in `s`, or -1 when there is none. */
  function IndexOf(s: string, c: char): (i: int)
    ensures -1 <= i < |s|
    ensures i == -1 <==> c !in s
    ensures i >= 0 ==> s[i] == c && forall k :: 0 <= k < i ==> s[k] != c
  {
    if s == [] then -1
    else if s[0] == c then 0
    else
      var j := IndexOf(s[1..], c);
      if j == -1 then -1 else j + 1
  }

  /** `s.split(c)[0]`: the text before the first `c`, or all of `s` when there is none. */
  function FirstField(s: string, c: char): (field: string)
    ensures field <= s
    ensures c !in field
    ensures |field| < |s| ==> s[|field|] == c
  {
    if s == [] || s[0] == c then []
    else [s[0]] + FirstField(s[1..], c)
  }

  /**
    `getAffectedModule`: no module when the name has no ':', otherwise the
    text before the first ':'. The module is followed by a ':' in the name
    and holds no ':' itself.
   */
  function GetAffectedModule(remoteActionName: string): (moduleName: Option<string>)
    ensures moduleName.None? <==> ':' !in remoteActionName
    ensures moduleName.Some? ==>
      && ':' !in moduleName.value
      && |moduleName.value| < |remoteActionName|
      && remoteActionName == moduleName.value + [':'] + remoteActionName[|moduleName.value| + 1..]
  {
    if IndexOf(remoteActionName, ':') == -1 then None
    else Some(FirstField(remoteActionName, ':'))
  }

  /** A name built as `module:rest`, with no ':' in `module`, names `module`. */
  lemma {:induction false} AffectedModuleOfPrefixedName(moduleName: string, rest: string)
    requires ':' !in moduleName
    ensures GetAffectedModule(moduleName + ":" + rest) == Some(moduleName)
  {
    var name := moduleName + ":" + rest;
    assert name[|moduleName|] == ':';
    FirstFieldOfPrefixed(moduleName, rest);
  }

  /** The first field of `module:rest`, split at ':', is `module` when `module` holds no ':'. */
  lemma {:induction false} FirstFieldOfPrefixed(moduleName: string, rest: string)
    requires ':' !in moduleName
    ensures FirstField(moduleName + ":" + rest, ':') == moduleName
  {
    if moduleName != [] {
      assert (moduleName + ":" + rest)[1..] == moduleName[1..] + ":" + rest;
      FirstFieldOfPrefixed(moduleName[1..], rest);
    }
  }

  /**
    The module a selector routes by. `if (targetModule)` is false for a
    missing module and for the empty module of a name that starts with ':',
    and both of these go to the default selector.
   */
  function RoutedModule(remoteActionName: string): (target: Option<string>)
    ensures target.Some? <==> ':' in remoteActionName && remoteActionName[0] != ':'
    ensures target.Some? ==> target.value != [] && GetAffectedModule(remoteActionName) == target
  {
    match GetAffectedModule(remoteActionName)
    case None => None
    case Some(moduleName) => if moduleName == [] then None else Some(moduleName)
  }

  /** `peerInfo.modules && peerInfo.modules[moduleName]`, kept in order. */
  function MatchingPeers(peers: seq<Peer>, moduleName: string): (matching: seq<Peer>)
    ensures |matching| <= |peers|
    ensures forall p :: p in matching ==> p in peers && Advertises(p, moduleName)
  {
    FilterMembers((p: Peer) => Advertises(p, moduleName), peers);
    Filter((p: Peer) => Advertises(p, moduleName), peers)
  }

  /** The matching peers are exactly the peers that advertise the module, each as often as in `peers`. */
  lemma MatchingPeersAdvertise(peers: seq<Peer>, moduleName: string)
    ensures forall p :: p in MatchingPeers(peers, moduleName) <==> p in peers && Advertises(p, moduleName)
    ensures multiset(MatchingPeers(peers, moduleName)) <= multiset(peers)
  {
    var f := (p: Peer) => Advertises(p, moduleName);
    FilterMembers(f, peers);
    FilterMultiplicity(f, peers);
    forall p | p in peers && Advertises(p, moduleName) ensures p in MatchingPeers(peers, moduleName) {
      assert multiset(MatchingPeers(peers, moduleName))[p] == multiset(peers)[p];
    }
  }

  datatype RequestPacket = RequestPacket(procedure: string)

  /** The input of a request selector; only the fields the selectors read are kept. */
  datatype RequestInput = RequestInput(
    nodeInfo: NodeInfo,
    peers: seq<Peer>,
    peerLimit: Option<nat>,
    requestPacket: RequestPacket)

  datatype MessagePacket = MessagePacket(event: string)

  /** The input of a send selector; only the fields the selectors read are kept. */
  datatype SendInput = SendInput(
    nodeInfo: NodeInfo,
    peers: seq<Peer>,
    peerLimit: Option<nat>,
    messagePacket: MessagePacket)

  /** `Math.floor(random * n)` for `random` in [0, 1) and `n > 0` is a position in a list of `n`. */
  lemma ScaledIndexInRange(random: real, n: nat)
    requires 0.0 <= random < 1.0 && n > 0
    ensures 0 <= (random * n as real).Floor < n
  {
  }

  /** `Math.floor(random * matchingPeers.length)`. */
  function ChosenIndex(random: real, n: nat): (k: nat)
    requires 0.0 <= random < 1.0 && n > 0
    ensures k < n
  {
    ScaledIndexInRange(random, n);
    (random * n as real).Floor
  }

  /**
    `interchainSelectForRequest`: one peer, at a random position among the
    peers that advertise the procedure's module; nothing when none does; the
    default selector on the unchanged input when there is no module.
   */
  function InterchainSelectForRequest(
    input: RequestInput, random: real, defaultSelect: RequestInput -> seq<Peer>)
    : (selected: seq<Peer>)
    requires 0.0 <= random < 1.0
    ensures RoutedModule(input.requestPacket.procedure).None? ==> selected == defaultSelect(input)
    ensures RoutedModule(input.requestPacket.procedure).Some? ==>
      var moduleName := RoutedModule(input.requestPacket.procedure).value;
      && ((forall p :: p in input.peers ==> !Advertises(p, moduleName)) <==> selected == [])
      && (selected != [] ==> |selected| == 1 && selected[0] in input.peers && Advertises(selected[0], moduleName))
  {
    match RoutedModule(input.requestPacket.procedure)
    case None => defaultSelect(input)
    case Some(moduleName) =>
      var matching := MatchingPeers(input.peers, moduleName);
      MatchingPeersAdvertise(input.peers, moduleName);
      if |matching| == 0 then []
      else
        assert matching[0] in matching;
        [matching[ChosenIndex(random, |matching|)]]
  }

  /** Every matching peer can be the one chosen: the random value `j / n` picks the peer at position `j`. */
  lemma EveryMatchCanBeChosen(input: RequestInput, defaultSelect: RequestInput -> seq<Peer>, j: nat)
    requires RoutedModule(input.requestPacket.procedure).Some?
    requires j < |MatchingPeers(input.peers, RoutedModule(input.requestPacket.procedure).value)|
    ensures var matching := MatchingPeers(input.peers, RoutedModule(input.requestPacket.procedure).value);
            var random := j as real / |matching| as real;
            && 0.0 <= random < 1.0
            && InterchainSelectForRequest(input, random, defaultSelect) == [matching[j]]
  {
    var matching := MatchingPeers(input.peers, RoutedModule(input.requestPacket.procedure).value);
    var n := |matching|;
    var random := j as real / n as real;
    assert random * n as real == j as real;
    assert ChosenIndex(random, n) == j;
  }

  /**
    `interchainSelectForSend`: a shuffle of the peers that advertise the
    event's module, cut to the limit (`slice(0, undefined)` keeps them all);
    nothing when no peer advertises it; the default selector on the unchanged
    input when there is no module.
   */
  function InterchainSelectForSend(
    input: SendInput, shuffle: seq<Peer> -> seq<Peer>, defaultSelect: SendInput -> seq<Peer>)
    : (selected: seq<Peer>)
    requires IsShuffle(shuffle)
    ensures RoutedModule(input.messagePacket.event).None? ==> selected == defaultSelect(input)
    ensures RoutedModule(input.messagePacket.event).Some? ==>
      var moduleName := RoutedModule(input.messagePacket.event).value;
      var matching := MatchingPeers(input.peers, moduleName);
      && (forall p :: p in selected ==> p in input.peers && Advertises(p, moduleName))
      && |selected| == (if input.peerLimit.Some? then Min(input.peerLimit.value, |matching|) else |matching|)
      && multiset(selected) <= multiset(input.peers)
  {
    match RoutedModule(input.messagePacket.event)
    case None => defaultSelect(input)
    case Some(moduleName) =>
      var matching := MatchingPeers(input.peers, moduleName);
      if |matching| == 0 then []
      else
        var shuffled := shuffle(matching);
        var limit := if input.peerLimit.Some? then input.peerLimit.value else |shuffled|;
        SendPickFromMatching(input.peers, moduleName, shuffled, limit);
        Take(shuffled, limit)
  }

  /** A prefix of a reordering of the matching peers holds only matching peers, none more often than `peers`. */
  lemma SendPickFromMatching(peers: seq<Peer>, moduleName: string, shuffled: seq<Peer>, limit: nat)
    requires multiset(shuffled) == multiset(MatchingPeers(peers, moduleName))
    ensures forall p :: p in Take(shuffled, limit) ==> p in peers && Advertises(p, moduleName)
    ensures multiset(Take(shuffled, limit)) <= multiset(peers)
  {
    MatchingPeersAdvertise(peers, moduleName);
    TakeIsSubMultiset(shuffled, limit);
    SubMultisetMembers(Take(shuffled, limit), MatchingPeers(peers, moduleName));
  }

  /** A routed send reaches no peer exactly when no peer advertises the module (or the limit is zero). */
  lemma SendEmptyWhenNoMatch(input: SendInput, shuffle: seq<Peer> -> seq<Peer>, defaultSelect: SendInput -> seq<Peer>)
    requires IsShuffle(shuffle)
    requires RoutedModule(input.messagePacket.event).Some?
    ensures var moduleName := RoutedModule(input.messagePacket.event).value;
            var selected := InterchainSelectForSend(input, shuffle, defaultSelect);
            (selected == []) <==> ((forall p :: p in input.peers ==> !Advertises(p, moduleName)) || input.peerLimit == Some(0))
  {
    var moduleName := RoutedModule(input.messagePacket.event).value;
    var matching := MatchingPeers(input.peers, moduleName);
    MatchingPeersAdvertise(input.peers, moduleName);
    if matching != [] {
      assert matching[0] in matching;
    }
  }
}
