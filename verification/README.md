# Loopring relay-lib, modelled in Dafny

relay-lib is the Go library under Loopring's relay: it packs and unpacks contract calls, balances
tasks over a cluster of workers, turns mined rings into fills, keeps order amounts and market
tables, and moves orders and metrics through unbounded queues. This project models the parts whose
correctness spans several functions or a whole run, and proves what they promise. Where the code
does not keep a promise, the project keeps the code as it is, gives an input that shows it, and
proves exactly when the promise holds.

`dafny verify dfyconfig.toml` checks everything.

## Modules

| files | what they model |
|---|---|
| `Results`, `Words` | Go results (value, error, panic); big-endian words, padding, `U256` |
| `AbiTypes`, `AbiPack`, `AbiUnpack` | the ABI codec: type tree, typed values, the packing and unpacking loops |
| `AbiSpec`, `AbiRoundTrip` | the head/tail formula of the Solidity Contract ABI Specification, "Formal Specification of the Encoding", with its own notion of dynamic types, the encoder compared with it, and the round trip |
| `AbiBoundary`, `AbiAccepts`, `AbiLayout` | which types the codec carries at all; which values and words it accepts; where arguments and elements stand in the bytes |
| `BalancerProtocol` | the task balancer as a transition system: one step per node write under the mutex, two (read the table, set the node) without it |
| `BalancerRace` | the runs in which the balancer breaks its promise |
| `BalancerHandOver` | what a task that is moved between live workers waits for |
| `BalancerLife` | what can remove one task or change its record |
| `BalancerGreedy`, `BalancerMaster` | the assignment loops with their bound; the master as an object that logs the steps it takes |
| `Orders`, `OrderAmounts` | the hash preimage and the exact rational amounts of an order |
| `RingMined`, `FeeSelection`, `SubmitRing`, `UniqueId` | rings: the mined event, the submitRing call end to end, the fee mask, the unique id |
| `MarketSymbols`, `MarketTables`, `MarketPairs`, `MarketIndex` | market names, sides and prices; token pairs under register and unregister events |
| `Channel`, `Metrics` | the unbounded channel with its producers; the batching metric consumer |

Loops of the source are loops here, proved against a function; that function is what the lemmas
are about. A Go map iteration is a loop over a set that picks any element, so nothing depends on
its order.

## Where the code and its promise differ

- **Stale node writes.** `balanceTasksOnReleased` calls `assignedTasks` after releasing the mutex
  (zklock/zk_balancer.go:590-596): it reads the task table and sets the node later
  (zklock/zk_balancer.go:348-359). A rebalancing or an orphan check that takes a task away in between
  makes the waiting content stale, and the task can end up in two live workers' nodes:
  `BalancerRace.StaleSetBreaksPromise` is such a run from the start of a term. The condition is exact
  for each task by itself: as long as no step takes it away from a waiting content it is in one node at
  most, whatever happens to other tasks (`BalancerProtocol.TaskInOnePlace`), and after any such step the
  run can go on until two live nodes hold it (`BalancerRace.TakingAwayBreaks`). A Set keeps the invariant
  iff its content is still settable (`BalancerProtocol.SetKeepsExactly`).
  Hand-over suffers the same way: a stale Set shows a task again that was moved and is still Releasing,
  as in the middle of that run. A moved task waits in every continuation iff, at the move, only its old
  owner sees it and no waiting content holds it: `BalancerHandOver.HandOverExactly`.
- **Nested arrays with a dynamic argument.** `Pack` counts one array level in its input offset
  (eth/abi/argument.go:272-279) while the decoder counts all (eth/abi/argument.go:212-223). Besides
  unsupported types this is the only case in which the encoding and the round trip fail:
  `AbiSpec.PackMatchesSpecification`, `AbiBoundary.RoundTripExactly`.
- **Dynamic elements.** Slices and arrays of strings, byte strings or slices are encoded without element
  offsets. One such type anywhere in an argument list makes the list lose values
  (`AbiBoundary.UnsupportedFails`); `AbiRoundTrip.SliceOfStringsFails` decodes to a different value
  without an error.
- **Empty slice of arrays.** The type check looks at element 0 (eth/abi/error.go:53-54) and panics.
- **Empty arrays.** An argument `T[0]` is packed to nothing, where the decoder wants a word; a slice of
  two of them is refused, of one carried (`AbiBoundary.SupportedExactly`).
- **Integers wider than 64 bits** decode as unsigned (eth/abi/unpack.go:47-48): the round trip gives
  the value modulo 2^256.
- **RingMined, last fill.** For the last order the token and amount bought are those of the *first*
  order (eth/contract/event.go:142-143), not of the predecessor as in the other branches. So the amounts
  bought and sold of a token differ in general once a ring has more than two orders.
  `RingMined.ConservationExactly` gives the exact condition.
- **safeBig** takes a word as negative when its first byte is above 128, so the words from 2^255 to
  129*2^248 read as positive (`RingMined.SafeBigExact`).
- **submitRing** reading: the length check leaves out the flag list (eth/contract/method.go:147-155),
  so a shorter flag list panics; the model's `Down` says when.
- **minWeightWorker** uses -1 as "not set" (zklock/zk_balancer.go:612-622) and can miss the minimum
  when the least weight is -1 and another one is above it: `BalancerGreedy.MinWeightExact`.
- **Fee selections.** Order 63 of a ring sets the sign bit of an int64 and later orders nothing
  (types/ring.go:65); the low sixteen bits of the absolute value then go on the wire. They are wrong
  exactly when order 63 and one of the first fifteen select: `FeeSelection.WireBits`.
- **Dashes in symbols.** Token pairs are keyed by the joined symbols, so two pairs with one name become
  one: `MarketIndex.ListedExactly`, `MarketIndex.DashLosesPair`.
- **Registering a known symbol** appends its pairs a second time; **unregistering** drops every pair
  with the event's address, whatever its symbol. `MarketPairs.RegisterAgrees` and
  `MarketPairs.UnRegisterAgrees` are the exact conditions.
- **GetSide** upper-cases symbols for the tables but not for the base orders
  (marketutil/marketutil.go:450-451): "weth" and "usdt" are bought both ways.
- **Shared addresses.** `AddressToAlias` takes the first match of a map iteration (marketutil/marketutil.go:365-372).
  If a token and a market share an address, two calls may find different ones and both directions may be
  sells: `MarketTables.SharedAddressSellsBothWays`.
- **AllMarkets** lists a market that has no base order against itself: `MarketTables.AllMarketsExactly`.
- **CalculatePrice** panics for a token that came from a register event, which has no decimals
  (marketutil/marketutil.go:261-270); the model's `PriceOf` does too.

## Assumptions of the balancer model

One master term. A `Set` on a live worker's node succeeds and on a dead one has no effect. A list of
children is current when the handler that uses it runs. Reading the table for a node's content is one
step and setting the node another; under the mutex they are one, because the table cannot change.
Workers may join and leave, time may pass and other handlers may run between any two steps.
`locked` holds the workers whose nodes are still to be written under the mutex (or before the other
handlers start, as in `deprecateTasks`), `loose` the calls of `assignedTasks` owed without it, and
`pending` those of them that have read the table. `loadTasksForWorker` makes a fresh copy per
iteration, as Go does since 1.22. A new term starts from whatever nodes the last one left:
`NodesReady`, which every run in order keeps, is what a term needs. The object in `BalancerMaster`
performs one handler at a time and logs its protocol steps; all interleavings are in `BalancerProtocol`.

## Model

| member | source | states |
|---|---|---|
| AbiTypes.CanonIdentity | eth/abi/unpack.go:29-50 | a value survives the wire unchanged exactly when its big integers are in [0, 2^256) |
| AbiTypes.GetArraySize | eth/abi/argument.go:212-223 | the loop computes the number of words of a nested array |
| AbiTypes.GetFullElemSize | eth/abi/unpack.go:96-105 | the loop computes the byte size of a static element, at every nesting |
| AbiPack.Pack1 | eth/abi/type.go:173-198 | the appending loop packs exactly what the recursive definition says, errors and panics included |
| AbiPack.PackLoop | eth/abi/argument.go:281-305 | heads and tails gathered in one pass are the heads followed by the tails of the recursive definition |
| AbiPack.Pack | eth/abi/argument.go:261-306 | count check, input offset and loop together, errors and panics included |
| AbiUnpack.LengthPrefix | eth/abi/unpack.go:201-230 | an accepted offset and length lie inside the data |
| AbiUnpack.ToGoType | eth/abi/unpack.go:153-198 | decoding one value, errors included, for any index and data |
| AbiUnpack.ForEachUnpack | eth/abi/unpack.go:108-149 | the filling loop decodes every element in turn, or fails like the first bad one |
| AbiUnpack.UnpackValues | eth/abi/argument.go:228-252 | the loop decodes the non-indexed arguments at their slots, array arguments shifting the later ones |
| AbiUnpack.IndexedIsSkipped | eth/abi/argument.go:72-80 | an indexed argument anywhere makes no difference to what is decoded |
| AbiUnpack.ValueOfArgument | eth/abi/argument.go:228-252 | for each non-indexed argument the value at the place given by the number of such arguments before it is the one decoded at its own type and slot, and there are no other values |
| AbiAccepts.PackOkExactly | eth/abi/error.go:40-79 | packing succeeds exactly on values of the right kinds, widths, array lengths and non-empty lists of arrays, all the way down |
| AbiAccepts.PackErrors | eth/abi/error.go:40-79 | a wrong kind, width, array length or argument count is an error, not a panic |
| AbiAccepts.EmptyLists | eth/abi/error.go:48-55 | an empty list of arrays panics, an empty list of slices is packed as its length |
| AbiAccepts.ReadBoolExactly | eth/abi/unpack.go:53-67 | a word is read as a bool iff it is exactly the word 0 or 1 |
| AbiAccepts.ReadFunctionExactly | eth/abi/unpack.go:71-81 | a word is read as a function iff its last eight bytes are zero |
| AbiAccepts.NativeWidths | eth/abi/unpack.go:29-46 | intN and uintN for N in 8, 16, 32, 64 come back from their words over the whole Go range |
| AbiAccepts.WideWidths | eth/abi/unpack.go:47-48 | all other widths come back as unsigned words |
| AbiAccepts.LengthPrefixExactly | eth/abi/unpack.go:201-230 | an offset and a length are accepted iff the length word and the contents lie inside the data, and those are what is returned |
| AbiSpec.EncLength | eth/abi/pack.go:29-66 | an encoding is a whole number of words; a static type has exactly its word count |
| AbiSpec.PackValIsEnc | eth/abi/type.go:173-198 | packing a value gives the formal encoding, or panics exactly on an empty slice of arrays |
| AbiSpec.HeadSizeExact | eth/abi/argument.go:272-279 | the input offset never exceeds the true head size and equals it exactly without nested arrays |
| AbiSpec.PackMatchesSpecification | eth/abi/argument.go:261-306 | Pack panics exactly on an empty slice of arrays; otherwise its output is whole words and equals the standard encoding iff no argument is dynamic or no array is nested |
| AbiSpec.StandardIsFormal | eth/abi/argument.go:281-305 | gathering heads and tails argument by argument is the standard's formula, where a head is the length of all heads and the earlier tails |
| AbiSpec.FormalEncodingLayout | eth/abi/argument.go:281-305 | every static argument stands in its head place; every dynamic head word is the byte position of its own length word |
| AbiRoundTrip.IntegerRoundTrip | eth/abi/numbers.go:48-50 | readInteger inverts U256 for every native width, signed or not; big integers come back modulo 2^256 |
| AbiRoundTrip.LayoutRoundTrip | eth/abi/argument.go:228-252 | the decoder's slot numbers meet the encoder's head positions: any data so laid out decodes to the values |
| AbiRoundTrip.RoundTrip | eth/abi/argument.go:228-306 | UnpackValues(Pack(vs)) succeeds and equals vs exactly when all big integers are in range |
| AbiBoundary.RoundTripExactly | eth/abi/argument.go:212-306 | a list of any types that write something carries all its values iff every type is supported and it has no dynamic argument or no nested array |
| AbiBoundary.UnsupportedFails | eth/abi/type.go:181-196 | one unsupported type in such a list loses the default values |
| AbiBoundary.SupportedExactly | eth/abi/unpack.go:108-198 | a single argument of any well-formed type, empty arrays included, carries all its values iff the type is supported |
| AbiBoundary.HollowFails | eth/abi/unpack.go:153-157 | empty arrays alone are packed to nothing and refused by the decoder |
| AbiBoundary.SliceOfHollowFails | eth/abi/unpack.go:108-120 | a slice of two empty arrays is refused |
| AbiBoundary.BadOffset | eth/abi/unpack.go:201-230 | in a packed default a head word 0 or 1 never leads to a length of 1 |
| AbiRoundTrip.DeepArrayFails | eth/abi/argument.go:272-279 | with both, the all-default values are packed and not given back |
| AbiRoundTrip.SliceOfStringsFails | eth/abi/type.go:181-196 | a slice with one empty string decodes to another value without an error |
| AbiRoundTrip.DecodedIsWellTyped | eth/abi/unpack.go:108-198 | for all bytes, index and well-formed type the decoder errs or returns a value of the type, and never panics |
| AbiRoundTrip.UnpackedIsWellTyped | eth/abi/argument.go:228-252 | for all bytes and well-formed argument types UnpackValues errs or returns one value of its type per non-indexed argument, and never panics |
| AbiRoundTrip.AnnouncedCount | eth/abi/unpack.go:201-230 | a decoded string or slice has exactly the length written at the offset, inside the data |
| BalancerProtocol.TaskKeeps | zklock/zk_balancer.go:425-610 | every step keeps a task in one node at most, Assigned to its worker unless that node is still to be rewritten, while the waiting contents with it are its owner's |
| BalancerProtocol.FreshExactly | zklock/zk_balancer.go:509-572 | a step leaves the waiting contents with a task its owner's iff it does not take the task away from one |
| BalancerProtocol.StepKeeps | zklock/zk_balancer.go:425-610 | the same for all tasks together |
| BalancerProtocol.UpToDateExactly | zklock/zk_balancer.go:509-572 | a step leaves the waiting contents up to date iff it takes no task of theirs away |
| BalancerProtocol.SetKeepsExactly | zklock/zk_balancer.go:356-362 | setting a content computed earlier keeps the invariant iff each of its tasks is still the worker's, or about to be overwritten and in no other node |
| BalancerProtocol.SeparateIsInOrder | zklock/zk_balancer.go:590-596 | in runs with no rebalancing or orphan check between a reading and its Set nothing is overtaken |
| BalancerProtocol.RunKeeps | zklock/zk_balancer.go:425-610 | the invariant of all tasks at every point of every run in which nothing is overtaken |
| BalancerProtocol.StartInv | zklock/zk_balancer.go:291-342 | loading from nodes that hold no task twice establishes the invariant |
| BalancerProtocol.TaskInOnePlace | zklock/zk_balancer.go:344-367 | in every run of a term in which no step takes the task away from a waiting content, whatever happens to others, after every single write: it is in one live node at most, and, when no locked write is outstanding, recorded as Assigned to that worker |
| BalancerProtocol.NoTaskTwice | zklock/zk_balancer.go:344-367 | the same for all tasks in runs in which nothing is overtaken; and the nodes are fit for the next term |
| BalancerLife.TaskRemoved | zklock/zk_balancer.go:425-507 | a step removes exactly the Deleting tasks that are named as released or 120 seconds old, and adds none |
| BalancerLife.TaskChanges | zklock/zk_balancer.go:425-610 | field by field, when a step changes status, owner and time stamp of a task, and to what; path, payload and weight never |
| BalancerLife.TaskStays | zklock/zk_balancer.go:425-610 | over every run a task that is not Deleting stays in the table, not Deleting, with its payload and weight |
| BalancerLife.TaskLeaves | zklock/zk_balancer.go:425-507 | over every run a task that left was Deleting and released or 120 seconds old at that step |
| BalancerLife.LoadExactly | zklock/zk_balancer.go:291-326 | loading makes a task found in a node Assigned to it if configured and Deleting if not, stamped now |
| BalancerRace.StaleSetBreaksPromise | zklock/zk_balancer.go:344-367 | a run from the start of a term in which a stale Set shows a moved task that is still Releasing, and then two nodes hold it |
| BalancerRace.TakingAwayBreaks | zklock/zk_balancer.go:590-596 | after any step that takes a task away from a waiting content some continuation ends with the task in two live nodes and the mutex free |
| BalancerRace.OvertakingBreaks | zklock/zk_balancer.go:590-596 | so after any overtaking step some continuation breaks both exclusivity and the record |
| BalancerHandOver.MoveMakesReleasing | zklock/zk_balancer.go:599-610 | a task taken from a live owner becomes Releasing, stamped now, in a rebalancing that is about to rewrite that owner's node |
| BalancerHandOver.ReleasingStays | zklock/zk_balancer.go:425-525 | a held task (Releasing, seen by its old owner at most, in no waiting content) stays held but for its released event, timeout or its owner leaving |
| BalancerHandOver.MovedTaskWaits | zklock/zk_balancer.go:425-610 | in every run a task moved cleanly stays held until one of these |
| BalancerHandOver.HandOver | zklock/zk_balancer.go:425-610 | hand-over in every run: a task moved cleanly from A is in no other worker's node, and in A's only until its pending rewrite, until its released event, 120 seconds as Releasing, or its new owner's leaving |
| BalancerHandOver.HandOverExactly | zklock/zk_balancer.go:344-610 | after a move the task waits in every continuation without such an event iff, at the move, only its old owner sees it and no waiting content holds it |
| BalancerHandOver.StaleShowsMoved | zklock/zk_balancer.go:590-596 | otherwise node writes alone can show the task again while its record is unchanged and the mutex free |
| BalancerHandOver.HandOverInOrder | zklock/zk_balancer.go:425-610 | in runs from a good start in which nothing is overtaken, every moved task stays held until one of these |
| BalancerGreedy.SortByWeight | zklock/zk_balancer.go:535-550 | the tasks to balance, each once, heaviest first |
| BalancerGreedy.MinWeightWorker | zklock/zk_balancer.go:612-622 | the scanning loop, for any iteration order |
| BalancerGreedy.MinWeightExact | zklock/zk_balancer.go:612-622 | it finds a lightest worker in every iteration order iff it is not so that -1 is the least weight and another is above; always for weights from 0 |
| BalancerGreedy.DoublingKeepsBound | zklock/zk_balancer.go:560-563 | the doubling update keeps every weight within twice the least plus the largest task |
| BalancerGreedy.PicksProgress | zklock/zk_balancer.go:550-564 | after every task: the first tasks went one to each worker, each placed task has one listed worker, and exactly the used workers are tracked |
| BalancerGreedy.GreedyBound | zklock/zk_balancer.go:550-564 | after every task, for all tie breaks: tracked weight <= 2*minimum + largest task weight, and >= the true weight given |
| BalancerGreedy.Distribute | zklock/zk_balancer.go:550-564 | the two loops make exactly such picks and reassign every task accordingly; in the end exactly the used workers are tracked, within the bound |
| BalancerMaster.DistributionBalances | zklock/zk_balancer.go:528-572 | after the loops no task is lost or Init, all have listed owners, and no worker is idle if there are enough tasks |
| BalancerMaster.PlanBalance | zklock/zk_balancer.go:550-564 | sorting and distributing the eligible tasks balances them |
| BalancerMaster.Master.Safe | zklock/zk_balancer.go:344-367 | at every logged point, readings and Sets apart, no task is in two nodes |
| BalancerMaster.Master.AssignedTasks | zklock/zk_balancer.go:344-367 | sets one live node to exactly the tasks Assigned to it, changes no other, and fails iff the worker is gone; logged as one step under the mutex and as reading and Set without it |
| BalancerMaster.Master.BalanceTasks | zklock/zk_balancer.go:528-572 | true iff there are workers and no task is Releasing; then no task is Init, all but the Deleting ones have listed owners, no worker is idle needlessly and every node holds exactly its worker's Assigned tasks; false changes no task and no node |
| BalancerMaster.Master.ReleaseOrphanTasks | zklock/zk_balancer.go:509-525 | exactly the tasks without a live owner become Init with no owner, the others stay |
| BalancerMaster.Master.BalanceTasksOnReleased | zklock/zk_balancer.go:574-597 | a postponed balancing is made up for as soon as nothing is Releasing; otherwise exactly the owners' nodes are rewritten |
| BalancerMaster.Master.InnerOnReleased | zklock/zk_balancer.go:425-455 | task by task: unnamed, Init and Assigned tasks stay, Releasing ones become Assigned to the same owner, Deleting ones go; in the end the owners' nodes are current, and a postponed balancing is made up for when nothing is Releasing |
| BalancerMaster.Master.HandleReleaseTimeoutAndInitTasks | zklock/zk_balancer.go:457-507 | task by task what 120 seconds do; the owners' nodes are current in the end; an Init task is balanced at once, or the balancing is postponed iff another one is still Releasing |
| BalancerMaster.Master.LoadTasks | zklock/zk_balancer.go:291-298 | known tasks found in nodes are Assigned to them, unknown ones become Deleting |
| BalancerMaster.Master.LoadTasksForWorker | zklock/zk_balancer.go:300-326 | the same for one node, in its order |
| BalancerMaster.Master.DeprecateTasks | zklock/zk_balancer.go:328-342 | the nodes of all live owners of Deleting tasks are current afterwards, true iff all owners are live; the table stays |
| BalancerMaster.Master.StartTerm | zklock/zk_balancer.go:191-210 | a term starts in a state that satisfies the invariant and balances what loading and orphaning left |
| BalancerMaster.Master.OrphanAndBalance | zklock/zk_balancer.go:209-220 | orphans become Init, then all is balanced, or postponed while a task is Releasing |
| Orders.PreimageLength | types/order.go:132-158 | the preimage is 282 bytes exactly when every number fits a word, never shorter |
| Orders.PreimageInjective | types/order.go:132-158 | for numbers in [0, 2^256), equal preimages iff all 13 hashed fields are equal |
| Orders.PreimageLayout | types/order.go:140-154 | the 282 hashed bytes one by one: delegate, owner, tokenS, tokenB, wallet, auth address, the five numbers, the flag and the margin |
| Orders.PreimageLosesSign | types/order.go:147-151 | negating an amount does not change the preimage |
| OrderAmounts.PairOfUnique | types/order.go:296-335 | price and counting side determine both amounts |
| OrderAmounts.RemainedAmount | types/order.go:296-318 | the counting side less dealt, cancelled and split, and the other side at the order's price |
| OrderAmounts.DealtAndSplitAmount | types/order.go:320-335 | dealt plus split on the counting side, and the other side at the order's price |
| OrderAmounts.AmountsConserved | types/order.go:296-335 | remained + dealt-and-split + cancelled equals the order on both sides, each at its price |
| OrderAmounts.ConvertOrderStateToFilledOrder | types/order.go:224-248 | panics exactly on a zero divisor that its branch reaches; otherwise availableS is the smaller of balance and remained, availableB is at the order's price, and the LRC balance is raised only when LRC is bought |
| RingMined.SafeBigExact | eth/contract/common.go:33-40 | safeBig inverts the two's-complement word exactly for -127*2^248 <= v < 129*2^248 |
| RingMined.Partners | eth/contract/event.go:132-153 | the three branches are next and previous modulo n, but for the last fill's bought token |
| RingMined.OneFill | eth/contract/event.go:122-190 | the loop body gives the fill that `FillWords`, `FillNumbers` and `SplitsInvert` describe |
| RingMined.FillLoop | eth/contract/event.go:118-190 | the loop gives all fills and the sum of their fees |
| RingMined.ConvertDown | eth/contract/event.go:104-196 | succeeds iff the list has at least 14 words in sevens; one fill per order in order, count and total fee |
| RingMined.FillWords | eth/contract/event.go:122-168 | hashes, owners, tokens and neighbours of fill i by their places in the flat list |
| RingMined.FillNumbers | eth/contract/event.go:168-178 | words 3, 4 and 5 of an order are its amount, its reward and its fee, the fee counted only if positive |
| RingMined.TotalOfFees | eth/contract/event.go:188-192 | the total is the sum of the positive fee words |
| RingMined.LinksAreInverse | eth/contract/event.go:132-153 | next and previous hashes are inverse links; SellTo and BuyFrom are the neighbours' owners |
| RingMined.OneCycle | eth/contract/event.go:120-122 | following the links visits every order once and returns |
| RingMined.SplitsInvert | eth/contract/event.go:180-186 | SplitS - SplitB is the decoded value, both non-negative and one zero |
| RingMined.BuysFromPrevious | eth/contract/event.go:132-153 | a fill buys what its predecessor sold, exactly when it is not the last of more than two |
| RingMined.BoughtMinusSold | eth/contract/event.go:132-168 | for every token, bought minus sold is what order 0 sells less what order n-2 sells |
| RingMined.ConservationExactly | eth/contract/event.go:139-145 | every token is conserved iff orders 0 and n-2 sell the same amount of the same token, or nothing |
| RingMined.TwoOrdersConserve | eth/contract/event.go:132-153 | rings of two always conserve |
| RingMined.ThreeOrdersFail | eth/contract/event.go:139-145 | a ring of three that does not |
| FeeSelection.FeeSelections | types/ring.go:61-69 | for rings of any size: bit i is set iff order i selects, for the first 63 orders; negative iff order 63 selects |
| FeeSelection.MaskBits | types/ring.go:61-69 | later orders do not disturb earlier bits |
| FeeSelection.WireBits | eth/contract/method.go:105 | the bits of the first sixteen orders survive the cut to 16 bits iff not both order 63 and one of the first fifteen select |
| SubmitRing.BuildInputs | eth/contract/method.go:69-105 | the loop builds the nine lists in order, owners' signatures before auth signatures; an error iff a signing fails |
| SubmitRing.GenerateData | eth/contract/method.go:68-117 | Ok iff the ring is not empty and every signing succeeds, Panic iff it is empty; after the method id every field stands at its byte position (`CallLayout`) |
| SubmitRing.CallLayoutOf | eth/contract/method.go:54-117 | byte for byte, from the ring: tail positions, counts, each order's four address words, six number words, margin, flag, v, r, s, then the auth signatures, fee recipient and mask |
| SubmitRing.Rounded | eth/contract/method.go:80 | the packed rate is the nearest integer, halves away from zero |
| SubmitRing.ConvertDown | eth/contract/method.go:141-197 | Err iff a checked list has the wrong length, Panic iff the flag list is short, otherwise every order filled in with TokenB from its successor |
| SubmitRing.CanonValues | eth/contract/method.go:54-66 | packing keeps all fields, integers modulo 2^256 |
| SubmitRing.ValuesInjective | eth/contract/method.go:54-66 | the field-by-position values determine the inputs |
| SubmitRing.WireKeeps | eth/contract/method.go:107-117 | unpacking the packed call gives exactly the reduced inputs, uniquely |
| SubmitRing.RecoveredExactly | eth/contract/method.go:154-190 | a recovered order equals the original iff its numbers fit, TokenB is its successor's TokenS and the addresses match |
| SubmitRing.SubmitRingRoundTrip | eth/contract/method.go:68-197 | end to end for every ring of two or more orders whose call fits a Go slice: the packed call unpacks to some inputs, and converting them gives back every order field, the hashes, the fee recipient and, iff the mask is not damaged, the selection bits |
| UniqueId.Xor | types/bytes.go:23-39 | the filling loop is the left-padded bytewise exclusive or |
| UniqueId.XorCommutes | types/bytes.go:23-39 | commutative for any lengths |
| UniqueId.XorAssociates | types/bytes.go:23-39 | associative for any lengths |
| UniqueId.XorTwice | types/bytes.go:23-39 | what is combined twice drops out |
| UniqueId.XorZeros | types/bytes.go:23-39 | the shorter string is padded with zeros in front |
| UniqueId.FoldPermutes | types/ring.go:71-82 | the fold of the hashes is the same for every permutation |
| UniqueId.IdByOrder | types/ring.go:71-82 | one order's id is its hash; a further order is combined with the id so far |
| UniqueId.HashOfBytes | types/ring.go:79 | the last 32 bytes count, zeros in front of fewer |
| UniqueId.ZeroHash | types/ring.go:72 | an id counts as not cached iff all its bytes are zero |
| UniqueId.Ring.GenerateUniqueId | types/ring.go:71-82 | the id is computed once, then cached |
| UniqueId.SameIdForSameOrders | types/ring.go:71-82 | two rings with the same orders in any order get the same id |
| MarketSymbols.UnWrapJoin | marketutil/marketutil.go:332-340 | UnWrap undoes "token-market" iff neither symbol has a dash and no space stands at an end |
| MarketSymbols.Spaces | marketutil/marketutil.go:333 | the characters that are trimmed |
| MarketSymbols.JoinInjective | marketutil/marketutil.go:191-192 | a joined key determines its two symbols |
| MarketTables.WrapMarketSymmetric | marketutil/marketutil.go:308-326 | symmetric iff the symbols are equal or tables and base orders tell the market |
| MarketTables.WrapMarketUnWrap | marketutil/marketutil.go:308-340 | unwrapping gives the two symbols, the second a market, and wrapping again the same name |
| MarketTables.AllMarketsExactly | marketutil/marketutil.go:170-184 | AllMarkets is the image of WrapMarket over distinct symbols iff all markets have base orders above those of mere tokens |
| MarketTables.BaseOrderTable | marketutil/marketutil.go:44 | the five base orders, zero for anything else |
| MarketTables.AddressToAlias | marketutil/marketutil.go:365-372 | finds some symbol with the address if there is one, else none |
| MarketTables.AliasUnique | marketutil/marketutil.go:365-372 | with distinct addresses every call finds the same |
| MarketTables.GetSideAntisymmetric | marketutil/marketutil.go:436-458 | with distinct addresses, whatever the calls find, swapping turns buy into sell iff the pair is not ambiguous |
| MarketTables.AddressPrefix | marketutil/marketutil.go:460-462 | only a lower-case 0x marks an address |
| MarketTables.SharedAddressSellsBothWays | marketutil/marketutil.go:436-458 | where a token and a market share an address, both directions may be sells |
| MarketTables.FiledSidesOpposite | marketutil/marketutil.go:436-458 | fitting tables: always opposite for different symbols, and selling means the market name starts with the sold token |
| MarketTables.MisspelledBuysBothWays | marketutil/marketutil.go:450-455 | two markets spelled without their base order are bought both ways |
| MarketTables.LowerCaseBuysBothWays | marketutil/marketutil.go:450-455 | for instance "weth" and "usdt" |
| MarketTables.PriceUnchangedBySwap | marketutil/marketutil.go:393-421 | with distinct addresses the exact price is the same from both sides iff exactly one direction is a buy, no price is computed, or the whole amounts are equal up to sign |
| MarketTables.PriceIsMarketPerToken | marketutil/marketutil.go:393-421 | the price times the whole amount of the market name's token is the whole amount of its market, whichever is sold; whole amounts are the integers over powers of ten |
| MarketTables.PriceFails | marketutil/marketutil.go:400-418 | zero without both tokens and amounts, a panic iff decimals are missing |
| MarketTables.TenPowers | marketutil/marketutil.go:110 | decimals count powers of ten |
| MarketPairs.RegisterAgrees | marketutil/marketutil.go:261-284 | the pairs still agree with a rebuild iff the symbol was new or there is no market |
| MarketPairs.UnRegisterAgrees | marketutil/marketutil.go:286-302 | they still agree iff exactly the pairs of the symbol use the event's address |
| MarketPairs.RegisterTwiceFails | marketutil/marketutil.go:261-284 | the same event twice lists pairs twice |
| MarketPairs.SharedAddressFails | marketutil/marketutil.go:286-302 | a shared address takes the other token's pairs away |
| MarketPairs.RunAgrees | marketutil/marketutil.go:186-302 | over every run of fresh registers and matching unregisters, AllTokenPairs is the multiset a rebuild produces |
| MarketPairs.UnRegisterUndoes | marketutil/marketutil.go:261-302 | unregistering restores tables and pairs from before registering |
| MarketPairs.RebuiltBothWays | marketutil/marketutil.go:186-199 | a rebuild pairs each market with each other known token both ways, with the market table's addresses first, and nothing else |
| MarketPairs.RegisteredToken | marketutil/marketutil.go:264-273 | what a register event files: no market, no decimals, nothing else touched |
| MarketPairs.UnRegisteredToken | marketutil/marketutil.go:289-299 | what an unregister event takes away, pair by pair |
| MarketIndex.ReadList | marketutil/marketutil.go:148-158 | the two tables: entries not denied, the last of a symbol |
| MarketIndex.TableOfExactly | marketutil/marketutil.go:148-158 | each table holds exactly the entries not denied and of its kind that no later one replaces |
| MarketIndex.ListMarkets | marketutil/marketutil.go:170-184 | the nested loops list exactly the market names, each once if symbols hold no dash |
| MarketIndex.RebuildPairs | marketutil/marketutil.go:186-199 | the loops over string keys list, for each joined name, the pair of a market and another token with that name |
| MarketIndex.ListedExactly | marketutil/marketutil.go:186-199 | that is every ordered pair once, as a multiset, iff no two pairs share a joined name |
| MarketIndex.PlainPairs | marketutil/marketutil.go:186-199 | symbols without a dash never share a name |
| MarketIndex.PlainAdded | marketutil/marketutil.go:275-282 | nor do the pairs of a new token |
| MarketIndex.DashLosesPair | marketutil/marketutil.go:191-192 | a market "A" and a token "A-A" do, and lose one of their pairs |
| MarketIndex.Index.constructor | marketutil/marketutil.go:120-202 | after a load of any list: the tables, the market names, and pairs that agree with the tables iff no two share a name |
| MarketIndex.Index.TokenRegister | marketutil/marketutil.go:261-284 | the event's effect on tables and pairs, which is the register step iff no two added pairs share a name; market list untouched |
| MarketIndex.Index.TokenUnRegister | marketutil/marketutil.go:286-302 | likewise |
| Channel.FirstInFirstOut | utils/unbounded_channel.go:9-37 | in every interleaving output followed by buffer is the input, in order |
| Channel.StopsEmpty | utils/unbounded_channel.go:23 | the goroutine ends only when all received items are delivered |
| Channel.ClosedForGood | utils/unbounded_channel.go:25-30 | the input is open until closed, and after that the goroutine only sends |
| Channel.Goroutine | utils/unbounded_channel.go:9-37 | the loop under its own condition follows the transition system, and has ended iff nothing is buffered and the input is closed |
| Channel.InputIsPrograms | broadcast/interface.go:84-95 | what arrives from a subscriber is an initial part of what it produced |
| Channel.ProgramConcat | broadcast/interface.go:86-93 | a subscriber's answers are worked off in turn, an error sending nothing |
| Channel.SubscriberOrderKept | broadcast/interface.go:82-98 | each subscriber's orders come out in its own order, none lost or repeated, whatever the others do |
| Metrics.BatchSend | cloudwatch/metric_producer.go:192-211 | the batches concatenate to the buffer; each has 1 to 20 metrics, all but the last 20 |
| Metrics.KeptOrDropped | cloudwatch/metric_producer.go:98-111 | every metric taken is kept or dropped as obsolete, once |
| Metrics.Consumer.Consume | cloudwatch/metric_producer.go:85-121 | one round: obsolete after 4 s, the obsolete count up to 200, a flush after 2 s or at 400, and batches followed by the buffer stay the kept metrics in order |
| Metrics.Consumer.EveryMetricAccountedFor | cloudwatch/metric_producer.go:85-121 | dropped, buffered and batched metrics together are exactly those taken |

## Left out

- Reflection in eth/abi: `set`, `indirect`, struct tags and `unpackTopics`; values are typed trees and fields are assigned by position.
- NewType and ABI JSON parsing: the type tree is given.
- HashTy and FixedPointTy: no parsed type has them.
- The Go element type of an empty list: a value tree does not record it, so the kind check on an empty list is not modelled.
- SubmitRing.SubmitRingRoundTrip: auth signatures, Keccak and ECDSA are opaque parameters; the rate amount is packed but not read back by the source.
- AbiBoundary.RoundTripExactly: leaves out lists with an argument `T[0]`, or a slice of such, which are carried or not depending on the arguments after it, and types holding an empty array of arrays, whose type check panics; `AbiBoundary.SupportedExactly` covers the former as a single argument.
- A torn reading of the task table: reading a node's content without the mutex is one step, although the loop could see a rebalancing half done.
- UniqueId.Ring.GenerateUniqueId: an empty ring panics on order 0 and is excluded.
- ZooKeeper client, watches, sleeps, master election and worker registration: they are the environment's steps.
- Tasks unknown to the init list may be assigned again once their owner has left, as `releaseOrphanTasks` turns them to Init; nothing is claimed against it.
- Upper case beyond ASCII and spaces beyond Latin-1 in market symbols.
- AllMarkets and SymbolTokenMap after register and unregister: the handlers do not update them.
- Malformed amount strings in `CalculatePrice`, and rounding of prices to floats.
- Display markets, market decimals, the cron refresh and address-to-source lookups: finite table reads.
- PubOrder: fills an error map, one entry per failing publisher.
- The network sends of PutMetricData and what happens to a batch after it was handed over.
- eth/accessor, eth/loopringaccessor, cache, dao, kafka, motan, sns, IPFS and Matrix clients, generated JSON codecs, the event emitter and gas price averaging: plumbing.
