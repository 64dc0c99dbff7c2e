# Interchain peer selection, modelled in Dafny

This project models the peer-selection core of the interchain plugin for a
gossip-style peer-to-peer network. Nodes advertise the modules they run, and
the plugin decides which known peers to use in three situations:

- opening connections;
- sending a request to one peer;
- broadcasting an event to several peers.

It has two layers:

- **The three baseline selectors** of `randomized-selection.js`:
  - **Connection** (`ConnectionSelection`): pops peers from a shuffled pool of
    tried peers and a shuffled pool of new peers, preferring tried peers.
  - **Request** (`RequestSelection`): shuffles the peers and cuts the list to
    the limit.
  - **Send** (`SendSelection`): shuffles the peers and splits them by the
    direction of their connection (outbound or inbound). The direction with
    fewer peers gets about half the limit and the other direction the rest.
- **The module-routing selectors** of `index.js` (`Interchain`). An action or
  event name `module:rest` is routed to the peers whose `modules` map has the
  key `module` (own keys only; inherited property names are left out below). A request then picks one of them at random. A send takes a
  shuffled prefix of them up to the limit. A name without a module prefix goes
  to the network's default selector.

`Collections` holds the list operations the selectors are built from:

- `Array.prototype.filter`;
- `slice(0, n)`;
- the contract of `lodash.shuffle`.

`Peers` holds the peer record.

Randomness, and the selectors the plugin wraps, are parameters:

- Each call of `lodash.shuffle` is a function `shuffle` with `IsShuffle(shuffle)`.
  This means every result has the length and the multiset of entries of its
  argument. The connection selector shuffles two lists, so it takes two such
  functions.
- In the connection selector, `Math.random() < r` at draw `i` is `coin(i)`.
- In the routed request selector, `Math.random()` is a real `random` in [0, 1).
- The default request and send selectors, which the plugin captures from the
  host network, are function parameters.

Every property is therefore proved for every order a shuffle can produce and
every outcome of the random draws.

A limit the code compares with `undefined` is an `Option`. Only the connection
selector tests for a negative limit (randomized-selection.js:4), so only there
is the limit an `int`; negative request and send limits are left out (below).

Some behaviours of the code worth knowing:

- A name that starts with ':' (for example `:transfer`) has the empty module
  `""`. `if (procedureTargetModule)` treats `""` as false, so such a name goes
  to the default selector like a name without ':' (`RoutedModule`).
- The send baseline with no limit computes `Math.round(undefined / 2)`, which
  is `NaN`, and `slice(0, NaN)` is empty, so the result is empty. The request
  baseline with no limit returns every peer.
- The connection baseline with no limit, or with a limit that covers both
  lists, returns `newPeers` followed by `triedPeers` unchanged, with no
  shuffle and no deduplication.
- The routed request selector ignores `peerLimit`.

## Model

| member | source | states |
|---|---|---|
| `Collections.Filter` | randomized-selection.js:48-49 | a filter never returns more entries than its input |
| `Collections.FilterMembers` | index.js:18-20 | every entry a filter keeps is an input entry that satisfies the test |
| `Collections.FilterMultiplicity` | randomized-selection.js:48-49 | a filter keeps every occurrence of an entry that passes the test and none of an entry that fails it |
| `Collections.FilterConcat` | randomized-selection.js:48-49 | filtering a concatenation is concatenating the filtered parts |
| `Collections.FilterKeepsFirstRun` | randomized-selection.js:63 | filtering two runs, the first all passing and the second all failing, gives back the first |
| `Collections.FilterKeepsSecondRun` | randomized-selection.js:63 | filtering two runs, the first all failing and the second all passing, gives back the second |
| `Collections.FilterCountInvariant` | randomized-selection.js:45-49 | reordering the input (as a shuffle does) does not change how many entries a filter keeps |
| `Collections.Take` | randomized-selection.js:41 | `slice(0, n)` returns the first `min(n, length)` entries, a prefix of the input |
| `Collections.TakeIsSubMultiset` | randomized-selection.js:41 | a prefix uses no entry more often than the whole list |
| `Collections.TakeMembers` | randomized-selection.js:60-62 | every entry of a prefix is an entry of the list |
| `Collections.SubMultisetMembers` | index.js:42 | every entry of a sub-multiset is an entry of the larger list |
| `Collections.IsShuffle` | randomized-selection.js:17-18 | what every call of `lodash.shuffle` returns: a reordering of its argument, with its length and its entries |
| `Peers.IsOutbound` | randomized-selection.js:48 | a peer whose `kind` is `'outbound'` |
| `Peers.IsInbound` | randomized-selection.js:49 | a peer whose `kind` is `'inbound'` |
| `Peers.Advertises` | index.js:19 | `peerInfo.modules && peerInfo.modules[moduleName]`: the peer has a `modules` map with the module as a key |
| `Peers.DirectionsExclusive` | randomized-selection.js:48-49 | no peer is both outbound and inbound |
| `ConnectionSelection.DrawOne` | randomized-selection.js:20-28 | one iteration of the draw callback pops the tried pool exactly when the tried pool is not empty and the coin says "tried", or when the new pool is empty; otherwise it pops the new pool |
| `ConnectionSelection.DrawOnePops` | randomized-selection.js:22-28 | a draw removes the last entry of the pool it pops and leaves the other pool as it was |
| `ConnectionSelection.DrawOneConserves` | randomized-selection.js:20-28 | a draw moves exactly one entry out of the pools |
| `ConnectionSelection.Run` | randomized-selection.js:19-29 | after `n` draws, `n` peers are drawn and the pools hold `n` fewer, so within the limit no `pop` meets an empty pool |
| `ConnectionSelection.RunConserves` | randomized-selection.js:19-29 | the drawn peers plus what is left in the pools are exactly the two shuffled pools: nothing duplicated, nothing lost |
| `ConnectionSelection.DrawsFromPools` | randomized-selection.js:19-29 | the drawn peers are a sub-multiset of the shuffled pools |
| `ConnectionSelection.DrawSource` | randomized-selection.js:20-28 | draw `j` of the result is the pop made on the pools the earlier draws left. It comes from the new pool exactly when that pool is not empty and the tried pool is empty or the coin says "not tried" |
| `ConnectionSelection.AllTriedCoinsDrawTried` | randomized-selection.js:20-22 | while every coin says "tried" and tried peers remain, the draws take the tried pool from its end and leave the new pool untouched |
| `ConnectionSelection.SelectForConnection` | randomized-selection.js:3-30 | negative limit: empty result. No limit, or a limit of at least all peers: `newPeers ++ triedPeers`. Otherwise: exactly `peerLimit` peers, a sub-multiset of the two input lists, equal to the draws of the specification `Run` on the shuffled pools |
| `RequestSelection.SelectForRequest` | randomized-selection.js:32-42 | no peers: empty. No limit: a permutation of the peers. A limit: `min(limit, count)` peers. Always a prefix of the shuffled peers and a sub-multiset of the input |
| `SendSelection.HalfLimit` | randomized-selection.js:47 | `Math.round(limit / 2)`: half the limit, a half rounded up |
| `SendSelection.ShortestFirst` | randomized-selection.js:60-63 | the two slices together stay within the limit |
| `SendSelection.ShortestFirstLength` | randomized-selection.js:60-63 | when the first list is no longer than the second, the slices fill `min(limit, total)` |
| `SendSelection.ShortestFirstSubMultiset` | randomized-selection.js:60-63 | the slices use no entry more often than the two lists hold it |
| `SendSelection.ShortestFirstCounts` | randomized-selection.js:60-63 | `min(h, shortest)` entries come from the shortest list and `min(limit - that, longest)` from the longest |
| `SendSelection.DirectionsPartition` | randomized-selection.js:48-49 | the outbound and inbound lists of a reordering of the peers together hold exactly the peers that have a direction |
| `SendSelection.SplitByDirection` | randomized-selection.js:48-63 | the split of a shuffled list stays within the limit |
| `SendSelection.SplitSubMultiset` | randomized-selection.js:48-63 | the split takes each directed peer at most as often as the input holds it |
| `SendSelection.SelectForSend` | randomized-selection.js:44-64 | no limit: empty. With a limit: a sub-multiset of the directed peers. Every returned peer is an input peer whose `kind` is outbound or inbound |
| `SendSelection.SendLength` | randomized-selection.js:44-64 | with a limit the result has `min(limit, number of directed peers)` entries |
| `SendSelection.DirectionListsApart` | randomized-selection.js:48-49 | the outbound list holds only outbound peers and the inbound list only inbound peers |
| `SendSelection.SendCounts` | randomized-selection.js:47-62 | reference counts: the fewer direction (inbound on a tie) gets `min(h, fewer)`, the other `min(limit - that, more)`; each count is at most the peers available, and together they are `min(limit, all directed peers)` |
| `SendSelection.SplitDirectionCounts` | randomized-selection.js:48-63 | the per-direction counts of the split of a shuffled list are the reference counts |
| `SendSelection.SendDirectionCounts` | randomized-selection.js:44-64 | the per-direction counts of the send selection are the reference counts of the input, for every shuffle |
| `SendSelection.SendExampleThreeOutboundSevenInbound` | randomized-selection.js:47-62 | 3 outbound, 7 inbound and a limit of 4 give 2 outbound and 2 inbound |
| `Interchain.IndexOf` | index.js:7 | `indexOf`: -1 exactly when the character is absent, otherwise the position of its first occurrence |
| `Interchain.FirstField` | index.js:10 | `split(':')[0]`: a prefix of the name with no ':', followed by ':' when it is shorter than the name |
| `Interchain.GetAffectedModule` | index.js:6-11 | no module exactly when the name has no ':'; otherwise the module has no ':' and the name is the module, a ':', and the rest |
| `Interchain.AffectedModuleOfPrefixedName` | index.js:6-11 | a name built as `module:rest` with no ':' in `module` names `module` |
| `Interchain.FirstFieldOfPrefixed` | index.js:10 | the first field of `module:rest` is `module` |
| `Interchain.RoutedModule` | index.js:16-17 | a name routes by module exactly when it contains ':' and does not start with it; the module is then the non-empty affected module |
| `Interchain.MatchingPeers` | index.js:36-38 | the filter of the peers that advertise the module: no longer than the input, and every entry an input peer that advertises the module |
| `Interchain.MatchingPeersAdvertise` | index.js:18-20 | the matching peers are exactly the input peers whose `modules` map has the module, none more often than in the input |
| `Interchain.ScaledIndexInRange` | index.js:24 | `Math.floor(random * n)` is a position in a list of `n` |
| `Interchain.ChosenIndex` | index.js:24 | the chosen position is within the matching peers |
| `Interchain.InterchainSelectForRequest` | index.js:13-29 | no routed module: the default selector's result on the same input. Routed: empty exactly when no peer advertises the module, otherwise one peer from the input that advertises it |
| `Interchain.EveryMatchCanBeChosen` | index.js:24-25 | each matching peer is the one chosen for some random value in [0, 1) |
| `Interchain.InterchainSelectForSend` | index.js:31-46 | no routed module: the default selector's result on the same input. Routed: only input peers that advertise the module, `min(limit, matching)` of them (all matching peers without a limit), none more often than in the input |
| `Interchain.SendPickFromMatching` | index.js:42 | a prefix of a shuffle of the matching peers holds only matching peers, none more often than in the input |
| `Interchain.SendEmptyWhenNoMatch` | index.js:36-42 | a routed send is empty exactly when no peer advertises the module or the limit is 0 |

## Left out

- `attachInterchain` (index.js:48-75) is not part of this model. It patches the host network module's `load`, wraps `applyNodeInfo` and overwrites private fields of the host's peer pool. The default selectors it captures are the parameters `defaultSelect`.
- The ratio `x` and the probability `r = max(x, 0.5)` (randomized-selection.js:14-16) are floating point and only shape the probabilities of the coin. The model proves facts for every sequence of coin outcomes, and no statistical facts.
- The branch for two empty pools (randomized-selection.js:11-13) cannot be reached: the limit test above it already returns. The model has no branch for it.
- Limits that are not whole numbers are not modelled: `slice` truncates them toward zero, and in the connection selector `Array(peerLimit)` (randomized-selection.js:19) throws a RangeError for one below the total. Negative request and send limits are not modelled either; for those `slice` counts from the end. Request and send limits are natural numbers or absent.
- `procedure` and `event` are always strings here. The code throws when one of them is missing, and that case is not modelled.
- `nodeInfo` is carried in the inputs but never read by these selectors.
- A peer's `modules[m]` counts as present whenever `m` is a key. The advertised values are objects, and objects are always truthy. Inherited property names (`constructor`, `toString`, `__proto__`), which `modules[m]` also finds on every `modules` object, are not modelled: a module of that name matches only peers that have it as a key.
- A shuffle is a function of its argument, so one call site sees one order per list. Each selector shuffles each list at most once per call, so this loses no behaviour.
- The connection selector's pools are local sequences that the loop reassigns. The pops of JavaScript arrays in place are modelled as dropping the last entry.
- `Interchain.ChosenIndex` computes `Math.floor(Math.random() * n)` in exact reals, not in double precision. Near a rounding boundary a given random value can give a neighbouring index in the code; the set of indices that can be chosen is the same, and no property here depends on the difference.
