# Vigor network functions, modelled and proved

Vigor is a set of packet-processing network functions (firewall, NAT, policer, load balancer, heavy-hitter
detector) built on a few small data structures: a hash map, a vector of keys, a time-ordered index allocator and
a Maglev-style consistent hash table. This project models those structures, the network functions on top of them
and the translator of their Python specifications, and proves what holds over whole runs.

`dafny verify dfyconfig.toml` checks the project with Dafny 4.11.

## How the model is built

| part | modules |
|---|---|
| number theory, counting | `Primes`, `Counting`, `PowerOfTwo` |
| consistent hashing | `Preference`, `ConsistentHash`, `HashTable` |
| index allocator (two rings in one array, then with times) | `CellRings`, `CellChain`, `Stamps`, `DoubleChain` |
| hash map (open addressing with chain counters) | `Probing`, `HashMap` |
| expiring table (hash map, key vector, allocator) | `Coherence`, `FlowTable` |
| runs of a network function over that table | `FlowRuns` |
| network functions | `Firewall`, `Nat`, `TokenBucket`, `Policer`, `PolicerFirewall`, `LoadBalancer`, `BalancerRuns`, `Balancer`, `Prefixes`, `HeavyHitter` |
| specification translator | `SpecLanguage`, `SpecMeaning`, `SpecTranslator`, `SpecPreservation`, `SpecRunOn`, `SpecExactness` |

The stack is one heap structure from the arrays up: a network function owns expiring tables, a table owns a hash
map over parallel arrays and an allocator over an array of linked cells. Every layer is proved against the values
the layer above sees: a partial map, a sequence of stamps, a view.

Each network function appears twice. A class holds its state and its methods follow the C code step by step. A
pure step function over the abstract state (key -> index and time of last touch) says what one packet does, and
the class's `Process` is proved to be that step. The theorems are about sequences of steps from empty tables, so
they hold for every reachable state of the class.

Assumptions, all stated in contracts:

- Time never runs backwards and bounds all timestamps; several packets may share one time. In runs times are
  mathematical integers, so that `now - expiry` may be negative and a run may last longer than the clock does.
- The allocator may pick any free index. The pick is a parameter of the step, or a ghost result of the method.
- Hashes are arbitrary functions of the flow. Reading headers, checksums and, but for the heavy hitter's masks, byte
  order are outside. A packet is the record of its device, its time, whether it parsed, and the header fields the code
  reads; a client packet of the load balancer leaves with the backend it is rewritten for.
- An entry expires when its time is strictly below the threshold, as `expire_items_single_map` does.

Where code and documentation differ the code is followed. `prime_is_coprime_with_anything`
(libvig/proof/prime.c:6) asserts too much: it fails for multiples of the prime, and `Primes.PrimeCoprimeExactly`
gives the exact condition. The comment on the heavy hitter's subnet mask speaks of lengths from 0; the loop gives bit
`b` the prefix length `b + 1`.

These promises do not hold for every configuration or input. Each has its exact condition:

- No backend starves: `ConsistentHash.StarvationExactly` (at least as many buckets as backends, and not 31 of both).
- The policer keeps to its rate: `Policer.KeepsRateExactly` (`TokenBucket.Honest`). If the rate divides the burst it
  does exactly when the 64-bit products of the code do not wrap around (`Policer.DividingKeepsRateExactly`). It fails
  for 3 bytes of burst at 2 bytes per second (`TokenBucket.NotWithinRate`), and for 18446744080 bytes at 20
  (`TokenBucket.WrapsAround`).
- Policer and firewall together keep to the configured rate: `PolicerFirewall.KeepsRateExactly`. That program passes
  rate and burst through 16-bit parameters, so it polices with the remainders by 65536. It fails for a burst of
  6375271008 at 125537 (`PolicerFirewall.TruncationBreaksRate`), which the policer alone keeps to.
- The agreement of policer and firewall: `PolicerFirewall.NeverFailsExactly` (no third device, or no outside).
- The NAT round trip, in every run: `Nat.RoundTripsExactly` (first port plus number of flows at most 65536).
- The NAT uses no flow index out of bounds: `Nat.StaysInBoundsExactly` (first port 0 and at least 65536 flows). Any
  other setting has a port that a packet from outside can carry and the flow table does not have (`Nat.StrayPacket`).
- A forgotten prefix of the heavy hitter comes back with the bucket and the report it would have had:
  `HeavyHitter.InvisibleExactly` (no packet as long as the burst, and the time to fill a bucket at most 2^63). Both
  causes have a run in which expiry shows (`HeavyHitter.ShowsAtBurst`, `HeavyHitter.ShowsAtOnce`).
- The heavy hitter notices every prefix that exceeds the rate: `HeavyHitter.DetectsExactly` (`TokenBucket.Honest`, with
  the heavy hitter's expiry time); up to 10^9 bytes per second, `HeavyHitter.SlowDetectsExactly` (the products fit).
- The heavy hitter's assertion on new buckets: `HeavyHitter.NeverAssertsExactly` (no packet longer than the burst, or
  no length configured).
- The translation of a specification keeps its meaning: `SpecExactness.KeepsMeaningExactly`, for every well-scoped
  specification and input, with the two causes on their own in `ReturnedExactly` and `PoppedExactly` and a
  specification for each that loses its meaning (`ReturnIsForgotten`, `PopIsForgotten`).

`requires` that come from the source's own demands: tables want a positive capacity
(libvig/verified/double-chain.c:116-118); the consistent hash table wants a prime height and fewer than
2^31 cells; policer and heavy hitter divide by the rate, and keep rate and burst in 64 bits; their methods take times
that the clock can show, from 0 up to 2^63; the heavy hitter asserts that a packet for which it
starts a bucket is no longer than the burst (vighhh/hhh_main.c:71); packet lengths are 16-bit.

The predicates `Peek`, `Unfold` and `Show` are always true. They are triggers that keep a costly definition out of
the verifier's sight until a proof mentions them.

## Model

| member | source | states |
|---|---|---|
| Primes.Bezout | libvig/proof/prime.c:30-41 | coprime numbers combine to one: the ground of the two assumed lemmas |
| Primes.EuclidLemma | libvig/proof/prime.c:30-41 | the product of a number below the modulus and one coprime to it is no multiple of the modulus; proved for every modulus, where the source assumes it |
| Primes.EuclidExactly | libvig/proof/prime.c:30-41 | for s coprime to m, k*s is a multiple of m exactly when k is |
| Primes.PrimeCoprimeExactly | libvig/proof/prime.c:5-11 | a prime is coprime to exactly the numbers it does not divide: the condition the source's coprimality lemma lacks |
| Primes.SameRemainder | libvig/proof/prime.c:43-53 | two numbers have the same remainder exactly when their difference has none |
| Primes.AffineIsInjective | libvig/proof/prime.c:55-82 | offset + mul*x modulo m is injective on 0..m-1 for every multiplier coprime to m |
| Primes.PrimeAffineIsInjective | libvig/unverified/cht-tm.c:20-28 | the same for a prime modulus and every multiplier below it |
| ConsistentHash.ListIsPermutation | libvig/unverified/cht-tm.c:19-29 | the list of buckets of each backend has every bucket exactly once |
| ConsistentHash.RankIsUnique | libvig/unverified/cht-tm.c:25-28 | the rank of a bucket in a backend's list inverts the list |
| ConsistentHash.TwinStarves | libvig/unverified/cht-tm.c:19-29 | of two backends with the same offset and shift, the one with the higher number is never chosen while both are active |
| ConsistentHash.StarvesAtHeight31 | libvig/unverified/cht-tm.c:20-23 | with 31 buckets backend 30 has the list of backend 0 and starves |
| ConsistentHash.TooManyBackends | libvig/unverified/cht-tm.c:41-60 | if nobody starves there are no more backends than buckets |
| ConsistentHash.StarvationExactly | libvig/unverified/cht-tm.c:19-60 | under every active set every active backend is the choice of some bucket, if and only if there are no more backends than buckets and not 31 of both |
| HashTable.Permutations | libvig/unverified/cht-tm.c:19-29 | the nested loops store every backend's list, cell by cell |
| HashTable.Fill | libvig/unverified/cht-tm.c:31-61 | the table holds for every bucket a permutation of all backends ordered by (rank, backend number); the log of writes has every cell exactly once |
| HashTable.FilledDone | libvig/unverified/cht-tm.c:37-51 | when the loops end, the counter of every bucket is the number of backends, and the cells form the promised table |
| HashTable.RowIsUnique | libvig/unverified/cht-tm.c:41-60 | an ordered row is determined by its members |
| HashTable.TableIsUnique | libvig/unverified/cht-tm.c:41-60 | two tables that meet the promise are equal |
| HashTable.FindPreferred | libvig/unverified/cht-tm.c:69-91 | finds a backend exactly when one is active, and then the best active one under the bucket's ranking |
| Preference.ChoiceIsUnique | libvig/unverified/cht-tm.c:69-91 | an active set has one best backend |
| Preference.Disruption | libvig/unverified/cht-tm.c:69-91 | between any two active sets the choice changes only if the old choice left or the new one joined |
| Preference.RemovalDisruption | libvig/unverified/cht-tm.c:69-91 | removing a backend moves only the flows that were on it |
| Preference.AdditionDisruption | libvig/unverified/cht-tm.c:69-91 | adding a backend moves flows only onto it |
| CellRings.OneOfTwo | libvig/unverified/double-chain-locks-impl.h:11-45 | every cell is in exactly one of the two rings |
| CellRings.AllocatedTest | libvig/unverified/double-chain-locks-impl.c:278-296 | a cell is allocated exactly when prev and next differ or both are the head of the allocated ring |
| CellRings.LayoutIsUnique | libvig/unverified/double-chain-locks-impl.h:11-45 | the array determines both lists, in order |
| CellChain.AllocateKeepsLayout | libvig/unverified/double-chain-locks-impl.c:122-146 | popping the free list and appending to the allocated ring gives a layout of the moved lists |
| CellChain.FreeKeepsLayout | libvig/unverified/double-chain-locks-impl.c:148-176 | unlinking from the allocated ring and pushing on the free list gives a layout of the moved lists |
| CellChain.RejuvenateKeepsLayout | libvig/unverified/double-chain-locks-impl.c:240-276 | unlinking a cell and linking it before the head moves it to the young end and changes nothing else |
| CellChain.CellChain.constructor | libvig/unverified/double-chain-locks-impl.c:98-120 | all indexes free, none allocated |
| CellChain.CellChain.AllocateNewIndex | libvig/unverified/double-chain-locks-impl.c:122-146 | fails exactly when all are taken; otherwise a free index is appended to the oldest-first order |
| CellChain.CellChain.FreeIndex | libvig/unverified/double-chain-locks-impl.c:148-176 | succeeds exactly for allocated indexes, and takes the index out of the order |
| CellChain.CellChain.RejuvenateIndex | libvig/unverified/double-chain-locks-impl.c:240-276 | succeeds exactly for allocated indexes, and moves the index to the young end |
| CellChain.CellChain.GetOldestIndex | libvig/unverified/double-chain-locks-impl.c:190-203 | the first of the order, if there is one |
| CellChain.CellChain.IsIndexAllocated | libvig/unverified/double-chain-locks-impl.c:278-296 | says whether the index is in the order |
| DoubleChain.DoubleChain.constructor | libvig/verified/double-chain.c:116-162 | an allocator with no index taken |
| DoubleChain.DoubleChain.AllocateNewIndex | libvig/verified/double-chain.c:360-405 | appends a free index with its time, and fails exactly when full; the order stays sorted by time |
| DoubleChain.DoubleChain.RejuvenateIndex | libvig/verified/double-chain.c:633-689 | moves an allocated index to the end with the new time |
| DoubleChain.DoubleChain.ExpireOneIndex | libvig/verified/double-chain.c:789-844 | releases the oldest index exactly when its time is below the threshold |
| DoubleChain.DoubleChain.IsIndexAllocated | libvig/verified/double-chain.c:867-890 | says whether the index has a stamp |
| DoubleChain.DoubleChain.FreeIndex | libvig/verified/double-chain.c:892-934 | takes out the stamp of an allocated index and leaves the others in order |
| Probing.PutCounts | libvig/verified/map-impl.c:1138-1247 | counting a new key on every cell passed over keeps each counter equal to the number of keys that passed over its cell |
| Probing.EraseCounts | libvig/verified/map-impl.c:815-998 | counting a key down on the same cells restores that for the remaining keys |
| Probing.ChainEnds | libvig/verified/map-impl.c:715-741 | a search that comes to a cell with counter zero and another content may stop: the key is nowhere |
| Probing.AllRound | libvig/verified/map-impl.c:675-755 | a search that has gone all the way round has missed nothing |
| Probing.MapSize | libvig/verified/map-impl.c:2556-2599 | the number of keys is the number of occupied cells |
| HashMap.Loop | libvig/verified/map-impl.c:36-53 | the doubled remainder is the remainder |
| HashMap.HashMap.constructor | libvig/verified/map-impl.c:1490-1555 | an empty map |
| HashMap.HashMap.FindKey | libvig/verified/map-impl.c:645-755 | finds the cell of a key exactly when the key is present, with the early stop |
| HashMap.HashMap.FindEmpty | libvig/verified/map-impl.c:1138-1247 | the first empty cell after the start: all before it are in use, and exactly those are counted up |
| HashMap.HashMap.FindKeyRemoveChain | libvig/verified/map-impl.c:815-998 | the cell of a present key is freed; exactly the cells before it are counted down |
| HashMap.HashMap.Get | libvig/verified/map-impl.c:1867-1910 | presence and value of a key, as the partial map has them |
| HashMap.HashMap.Put | libvig/verified/map-impl.c:2192-2257 | adds the key and nothing else; counters, cells and values stay consistent |
| HashMap.HashMap.Erase | libvig/verified/map-impl.c:2465-2516 | removes the key and nothing else; counters, cells and values stay consistent |
| HashMap.HashMap.Size | libvig/verified/map-impl.c:2556-2599 | counts the keys |
| Coherence.MapGet | libvig/proof/coherence.c:615-634 | a key of the map has an allocated index whose cell is engaged and holds the key |
| Coherence.IndexBusy | libvig/proof/coherence.c:557-585 | an allocated index has an engaged cell whose key the map sends back to it |
| Coherence.CoherentPut | libvig/proof/coherence.c:1320-1349 | adding a key at a free index keeps coherence |
| Coherence.CoherentRejuvenate | libvig/proof/coherence.c:690-704 | a new time stamp keeps coherence |
| Coherence.CoherentErase | libvig/proof/coherence.c:1897-1925 | dropping a key, its cell and its index together keeps coherence |
| Coherence.ViewIsGood | libvig/proof/coherence.c:1843-1892 | in a coherent state no two keys share an index, and indexes are below the capacity |
| Coherence.ViewSize | libvig/proof/coherence.c:775-784 | map and chain have the same size, at most the capacity |
| Coherence.ViewUses | libvig/proof/coherence.c:557-585 | an index is allocated exactly when some key has it |
| Coherence.NothingLeftToExpire | libvig/verified/expirator.c:149-226 | once the oldest entry is not below the threshold, none is |
| FlowTable.FlowTable.constructor | libvig/proof/coherence.h:82-168 | a coherent empty table |
| FlowTable.FlowTable.Get | libvig/proof/coherence.h:82-168 | presence and index of a key, as the view has them |
| FlowTable.FlowTable.KeyAt | libvig/proof/coherence.h:82-168 | the key that has an allocated index |
| FlowTable.FlowTable.IsIndexAllocated | libvig/proof/coherence.h:82-168 | an index is allocated exactly when a key of the view has it |
| FlowTable.FlowTable.Insert | libvig/proof/coherence.c:1320-1349 | fails exactly when full; otherwise adds the key at a free index and changes nothing else; the parts stay coherent |
| FlowTable.FlowTable.Rejuvenate | libvig/proof/coherence.c:690-704 | only the time of the key changes |
| FlowTable.FlowTable.Erase | libvig/proof/coherence.c:2187-2200 | only the key goes |
| FlowTable.FlowTable.ExpireOne | libvig/verified/expirator.c:149-192 | takes the oldest entry out of allocator and hash map exactly when it is older than the threshold |
| FlowTable.FlowTable.ExpireAll | libvig/verified/expirator.c:149-226 | removes exactly the entries older than the threshold, leaves the others their indexes, and counts them |
| FlowRuns.StepIsGood | vigfw/loop-with-defined-invariant.h:32 | every step keeps the table good and its times no later than now |
| FlowRuns.StepOnLive | vigfw/fw_flowmanager.c:39-89 | a live key keeps its index and value, and is dated anew exactly by packets that mention it |
| FlowRuns.StepOnDead | vigfw/fw_flowmanager.c:39-63 | a key that is not live comes in only by a packet that opens it, with that packet's index and value |
| FlowRuns.History | vigfw/fw_flowmanager.c:39-89 | an entry has an opening packet, its time is that of the last packet of its flow, and no gap exceeded the expiry time |
| FlowRuns.LiveExactly | vigfw/fw_flowmanager.c:39-89 | over any run a key is live exactly when some packet opened it and no gap in its packets since exceeded the expiry time |
| FlowRuns.LiveEntry | vigfw/fw_flowmanager.c:75-89 | a flow without gaps has the index and value of its opening packet, whatever other packets interleave |
| FlowRuns.ActiveIsGapless | vigfw/fw_flowmanager.c:39-89 | no gap between the packets of a flow is no gap in the use of its table entry |
| Firewall.FlowPacketsAreUses | vigfw/fw_flowmanager.c:39-89 | the packets of a flow, in either direction, are the uses of its entry |
| Firewall.ForwardedExactly | vigfw/fw_main.c:24-84 | a packet from outside is let in if and only if an earlier packet from inside, whose source is its destination and whose destination is its source, in address and port, over the same protocol, opened the entry and no gap between packets of the flow exceeded the expiry time; it goes to the device that packet came from |
| Firewall.OthersExactly | vigfw/fw_main.c:24-84 | in every run, what is not TCP or UDP stays on its device and what comes from inside goes to the WAN |
| Firewall.Firewall.constructor | vigfw/fw_flowmanager.c:21-37 | an empty flow table |
| Firewall.Firewall.Expire | vigfw/fw_flowmanager.c:65-73 | exactly the flows older than the expiry time go |
| Firewall.Firewall.AllocateOrRefreshFlow | vigfw/fw_flowmanager.c:39-63 | refreshes a known flow, opens a new one with its device, ignores a full table |
| Firewall.Firewall.GetRefreshFlow | vigfw/fw_flowmanager.c:75-89 | the stored device of a known flow, which is refreshed |
| Firewall.Firewall.Process | vigfw/fw_main.c:20-84 | one packet is one step of the run semantics, with its output device |
| Nat.PortsAreDistinct | vignat/nat_flowmanager.c:39-55 | different live flows have different external ports, with at most 65536 flows |
| Nat.SamePort | vignat/nat_main.c:70-100 | while there is no gap between the packets of a flow, all of them leave on the WAN device, from the external address and one port, congruent to the first port plus the flow's index, with destination and protocol kept |
| Nat.TranslatedExactly | vignat/nat_main.c:70-100 | in every run, a packet from inside is dropped exactly when it is not TCP or UDP or the table is full of flows that differ from it in device, address, port or protocol; otherwise its flow is in the table, used now, and the packet leaves on the WAN device, from the external address and the port of that flow's index modulo 65536, with destination and protocol kept |
| Nat.AliveIsGapless | vignat/nat_flowmanager.c:67-94 | no gap between the packets of a flow, outbound or to its port, is no gap in the use of its table entry |
| Nat.ReplyExactly | vignat/nat_main.c:47-69 | an answer (from the flow's remote end, over its protocol, to the external address and the flow's port) leads to the flow's index, and is delivered to the address, port and device that opened the flow, exactly when the port did not overflow |
| Nat.RoundTripExactly | vignat/nat_main.c:46-100 | over any run with no gap between the packets of the flow, the answer to a translated packet comes back from the original's destination to its source address, port and device, if and only if the port did not overflow 16 bits; otherwise the answer's port does not lead to the flow's index |
| Nat.LastIndexAnswered | vignat/nat_flowmanager.c:39-55 | a run of two packets in which a flow gets the last index and is answered |
| Nat.RoundTripsExactly | vignat/nat_config.h:23-32 | every answer of every run comes back if and only if the first port plus the number of flows is at most 65536 |
| Nat.StrayPacket | vignat/nat_flowmanager.c:78-84 | for every port below the first one or past the table, a packet from outside to it uses an index out of bounds |
| Nat.StaysInBoundsExactly | vignat/nat_flowmanager.c:78-84 | in every run every index is in bounds if and only if the first port is 0 and the table has an index for each of the 65536 ports |
| Nat.OnlyReplies | vignat/nat_main.c:47-69 | a packet from outside gets in only on a flow opened from inside, with no gap between its packets since, and is delivered to the device and address that opened it |
| Nat.Nat.constructor | vignat/nat_flowmanager.c:21-37 | an empty flow table |
| Nat.Nat.Expire | vignat/nat_flowmanager.c:57-65 | exactly the flows older than the expiry time go |
| Nat.Nat.AllocateFlow | vignat/nat_flowmanager.c:39-55 | fails exactly when full; otherwise the port is the first port plus the index, in 16 bits |
| Nat.Nat.GetInternal | vignat/nat_flowmanager.c:67-76 | the port of a known flow, which is refreshed |
| Nat.Nat.GetExternal | vignat/nat_flowmanager.c:78-94 | whether the index of a port is in bounds; if so, the flow that owns the port, if any, which is refreshed |
| Nat.Nat.FromOutside | vignat/nat_main.c:47-69 | an index out of bounds is reported; unknown port or wrong remote end is dropped; otherwise the packet is rewritten for the internal device |
| Nat.Nat.FromInside | vignat/nat_main.c:70-100 | the packet is rewritten to the external address and port, or dropped when the table is full |
| Nat.Nat.Process | vignat/nat_main.c:22-110 | one packet is one step of the run semantics, with its output |
| TokenBucket.ThresholdIsSigned | vigpol/policer_main.c:22-28 | for every time the clock can show, the modelled threshold is the signed 64-bit difference of time and expiry time |
| TokenBucket.MinTime | vigpol/policer_main.c:22-28 | computes that difference in 64 bits |
| TokenBucket.GuardBoundsProduct | vigpol/policer_main.c:48-52 | the guard, even where its own product wraps around, keeps time_diff * rate in 64 bits and below burst * 10^9, however long the pause |
| TokenBucket.TokensAt | vigpol/policer_main.c:48-64 | the refilled level, capped at the burst, with 64-bit arithmetic |
| TokenBucket.AfterInRange | vigpol/policer_main.c:56-71 | over any run the bucket stays between 0 and the burst |
| TokenBucket.DividingRateExactly | vigpol/policer_main.c:22-52 | a rate that divides the burst meets the exact condition if and only if the products fit in 64 bits |
| TokenBucket.FillingRateExactly | vighhh/hhh_main.c:35-48 | a bucket kept until it is full, at a rate of at most 10^9, meets the exact condition if and only if the products fit in 64 bits |
| TokenBucket.PaidSince | vigpol/policer_main.c:34-103 | bytes forwarded since any packet plus what the bucket is worth stay within one bucket and the rate, across expiry and re-creation |
| TokenBucket.Window | vigpol/policer_main.c:34-103 | under the condition, bytes in any window are at most burst + floor(rate * length / 10^9) |
| TokenBucket.DishonestExcess | vigpol/policer_main.c:22-103 | without the condition there is a run in which every packet is forwarded and the bound is exceeded, all at one instant if the expiry time is negative |
| TokenBucket.WithinExactly | vigpol/policer_main.c:22-103 | one bucket keeps to a rate and a burst, at least its own, in every window of every run if and only if the condition holds |
| TokenBucket.NotWithinRate | vigpol/policer_main.c:22-28 | 3 bytes of burst at 2 bytes per second do not keep to the rate |
| TokenBucket.WrapsAround | vigpol/policer_main.c:50-51 | 18446744080 bytes of burst at 20 bytes per second do not keep to the rate, although the rate divides the burst |
| TokenBucket.ExactBucket | vigpol/policer_main.c:43-71 | when the rate divides the burst and the products fit, the bucket never exceeds an exact rational bucket that is never forgotten and is charged with the same packets, and lags it by less than one byte for each refill |
| Policer.StepIsGood | vigpol/policer_main.c:34-103 | every step keeps table and buckets in agreement on the time of each destination's last packet |
| Policer.ChargeOther | vigpol/policer_main.c:34-103 | charging one destination leaves the buckets of the others alone |
| Policer.StepProjects | vigpol/policer_main.c:111-146 | seen from one destination the whole table is a single bucket |
| Policer.RunProjects | vigpol/policer_main.c:111-146 | a run of the policer is, for each destination, a run of one bucket that forwards the same bytes |
| Policer.PassesExactly | vigpol/policer_main.c:111-146 | in every run with different LAN and WAN devices, a packet from outside goes inside exactly when it is IPv4 and the bucket that the packets before it have left to its destination pays for it; a packet from inside goes outside exactly when it is IPv4; everything else stays on its device |
| Policer.Window | vigpol/policer_main.c:111-146 | the rate bound for every destination and window of a run, across expiry, re-creation and table-full drops, counting every packet from outside that leaves on the LAN device |
| Policer.KeepsRateExactly | vigpol/policer_main.c:22-146 | the bound holds in every run if and only if the condition on rate and burst holds |
| Policer.DividingKeepsRateExactly | vigpol/policer_main.c:22-146 | with a rate that divides the burst, the bound holds in every run if and only if the products fit in 64 bits |
| Policer.Policer.constructor | vigpol/policer_main.c:105-109 | an empty table |
| Policer.Policer.ExpireEntries | vigpol/policer_main.c:22-32 | exactly the buckets below the threshold go, which is computed in signed 64-bit arithmetic |
| Policer.Policer.CheckTb | vigpol/policer_main.c:34-103 | forwards exactly what fits and charges the bucket, in all branches |
| Policer.Policer.Process | vigpol/policer_main.c:111-146 | one packet is one step of the run semantics, with its output device |
| PolicerFirewall.IsFirewallRun | vigpolifw/fw_main.c:113-114 | a run of the combination is a run of the firewall |
| PolicerFirewall.IsPolicerRun | vigpolifw/fw_main.c:116-117 | a run of the combination is a run of the policer with rate and burst truncated to 16 bits |
| PolicerFirewall.AlwaysOpenedFrom | vigpolifw/fw_flowmanager.c:40-64 | in every run over a set of devices, every flow in the table was opened from one of them, and not from the WAN's |
| PolicerFirewall.Disagreement | vigpolifw/fw_main.c:119-124 | with a third device there is a run of two packets on which the assertion fails |
| PolicerFirewall.NeverFailsExactly | vigpolifw/fw_main.c:119-124 | over a set of devices the assertion holds in every run if and only if the LAN is the WAN, nothing comes from outside, or there are no other devices |
| PolicerFirewall.PassesExactly | vigpolifw/fw_main.c:92-130 | with two devices, packets from inside go out; packets from outside go in exactly when there is a live flow with source and destination exchanged, in address and port, over the same protocol, and they fit the bucket of the truncated rate and burst |
| PolicerFirewall.LetInIsSolicited | vigpolifw/fw_main.c:33-48 | a packet that is let in was solicited from inside without a gap |
| PolicerFirewall.HonestKeepsRate | vigpolifw/fw_flowmanager.c:94-175 | under the condition the bytes let in keep to the configured rate and burst, although packets that the firewall drops are charged |
| PolicerFirewall.Realize | vigpolifw/fw_main.c:92-130 | every run of one bucket, with the same bytes let in, happens in the combination |
| PolicerFirewall.KeepsRateExactly | vigpolifw/fw_flowmanager.c:94-175 | the bytes let in keep to the configured rate and burst in every run if and only if the bucket truncated to 16 bits is neither forgotten nor filled sooner than the configured rate pays for |
| PolicerFirewall.TruncationBreaksRate | vigpolifw/fw_flowmanager.c:94-175 | a configuration that the policer alone keeps to and the combination does not |
| PolicerFirewall.PolicerFirewall.constructor | vigpolifw/fw_flowmanager.c:21-38 | both tables empty, the configured rate and burst kept, for every positive rate |
| PolicerFirewall.PolicerFirewall.Process | vigpolifw/fw_main.c:92-130 | one packet is one step of both, with the truncated rate and burst, and the combined outcome; where the truncated rate is zero it divides by zero; a packet that is not TCP or UDP changes nothing |
| LoadBalancer.StepIsGood | viglb/lb_main.c:20-70 | every step keeps both tables good, backend records in agreement with the address table, and no backend behind the WAN device |
| LoadBalancer.DropIsUnambiguous | viglb/lb_main.c:53-69 | a client packet goes back to the WAN device exactly when no backend is alive; otherwise to the record of a live backend |
| LoadBalancer.ClearedAgain | viglb/lb_balancer.c:86-99 | forgetting a flow that lost its backend and asking again gives the same choice, record and state as the single step, and always has room |
| LoadBalancer.FlowSticks | viglb/lb_balancer.c:100-109 | a recorded flow that has not aged out keeps index and backend through every packet while the backend lives |
| LoadBalancer.OnlyJoinersAreNew | viglb/lb_balancer.c:115-147 | a backend is alive after a step only if it was before or joined with it |
| LoadBalancer.RecordStays | viglb/lb_balancer.c:115-147 | the record of a backend does not change while the backend is alive |
| LoadBalancer.InheritedExactly | viglb/lb_balancer.c:115-147 | a flow that has lost its backend is inherited by a new one, at the new one's address and device, exactly if that takes the old one's index |
| LoadBalancer.KeptAgrees | viglb/lb_balancer.c:38-113 | while a recorded flow neither ages out nor loses its backend it is sent to the record that backend had when the flow was recorded, and a fresh lookup would choose that backend or one that joined since |
| BalancerRuns.IsBackendRun | viglb/lb_balancer.c:115-171 | seen from the addresses of the backends, a run of the balancer is a run of an expiring table whose events are the heartbeats |
| BalancerRuns.BackendAliveExactly | viglb/lb_balancer.c:115-171 | in every run an address is that of a live backend at a time if and only if some heartbeat of it found room in the table and no gap between its heartbeats since, up to that time, exceeds the backend expiry time; its device and MAC address are those of that heartbeat |
| BalancerRuns.AliveExactly | viglb/lb_balancer.c:115-171 | the same told by backend index: it is alive if and only if the heartbeats of the address that was given it leave no gap |
| BalancerRuns.RecordedExactly | viglb/lb_balancer.c:38-113 | in every run a flow is recorded with a backend at a time if and only if some client packet of it chose that backend (no record with a live backend, room for one or an old one to replace, best in its hash bucket of those alive), no gap between its client packets since exceeds the flow expiry time, and each of them found the backend alive |
| BalancerRuns.ClientExactly | viglb/lb_main.c:20-70 | where every client packet of every run goes: to the device, MAC and address of the heartbeat that announced the recorded backend, if such a record has lasted and the heartbeats leave no gap; otherwise to those of the live backend its hash bucket prefers; dropped if none is alive |
| BalancerRuns.OthersExactly | viglb/lb_main.c:25-51 | heartbeats and what is not TCP or UDP stay on their device |
| BalancerRuns.CacheAgrees | viglb/lb_balancer.c:38-113 | while neither the client packets of a recorded flow nor the heartbeats of its backend leave a gap longer than their expiry times, the flow goes to the device, MAC and address that the heartbeat announced, and a fresh lookup would choose that backend or one that joined since |
| Balancer.Balancer.constructor | viglb/lb_balancer.c:21-36 | empty tables and a filled consistent hash table |
| Balancer.Balancer.ExpireFlows | viglb/lb_balancer.c:149-159 | exactly the flows older than the expiry time go |
| Balancer.Balancer.ExpireBackends | viglb/lb_balancer.c:161-171 | exactly the backends older than the expiry time go |
| Balancer.Balancer.ProcessHeartbeat | viglb/lb_balancer.c:115-147 | refreshes a known backend, records a new one, ignores a full table |
| Balancer.Balancer.Choose | viglb/lb_balancer.c:46-49 | the best live backend for the hash of the flow |
| Balancer.Balancer.Record | viglb/lb_balancer.c:51-67 | records the chosen backend for an unknown flow; a full table is ignored |
| Balancer.Balancer.Assign | viglb/lb_balancer.c:44-78 | the choice for an unknown flow, recorded if there is room |
| Balancer.Balancer.Keep | viglb/lb_balancer.c:100-109 | the recorded backend, with the flow refreshed |
| Balancer.Balancer.Forget | viglb/lb_balancer.c:88-98 | the record of the flow, and nothing else, goes |
| Balancer.Balancer.GetBackend | viglb/lb_balancer.c:38-113 | re-enters itself at most once and does what the loop-free step says |
| Balancer.Balancer.Process | viglb/lb_main.c:20-70 | one packet is one step of the run semantics, with its output |
| Prefixes.SwapBytes | vighhh/hhh_main.c:15-17 | the four bytes of a word change places |
| Prefixes.MaskIsPrefix | vighhh/hhh_main.c:93-95 | after n rounds the mask has exactly its highest n bits |
| Prefixes.AskedIsBit | vighhh/hhh_main.c:91-99 | the shifted word is odd in round b exactly when bit b of the configuration is set |
| Prefixes.MasksGrow | vighhh/hhh_main.c:93-95 | the mask of a shorter prefix is within that of a longer one |
| Prefixes.NetsAreNested | vighhh/hhh_main.c:93-102 | the configured masks, shortest first, refine one another |
| Prefixes.SamePrefixExactly | vighhh/hhh_main.c:93-102 | two addresses have the same key at a length if and only if, in host byte order, they agree in their highest bits, as many as the length |
| Prefixes.PrefixIsStart | vighhh/hhh_main.c:93-102 | the key has the highest bits of the address, as many as the length, and no others |
| Prefixes.NetsHaveLengths | vighhh/hhh_main.c:91-102 | the levels are those of the configured lengths, in order |
| Prefixes.LengthsAreAsked | vighhh/hhh_main.c:91-99 | a length is configured exactly when its bit is set |
| Prefixes.OneNetPerBit | vighhh/hhh_state.c:23-34 | there are as many levels as set bits: the level index stays below the count that sizes the arrays |
| Prefixes.CalculateSubnets | vighhh/hhh_state.c:23-34 | counts the set bits |
| HeavyHitter.ShowsAtBurst | vighhh/hhh_main.c:50-81 | a run in which a packet as long as the burst is paid for by a new bucket, and would have been reported with the one forgotten |
| HeavyHitter.ShowsAtOnce | vighhh/hhh_main.c:35-48 | two packets at one instant, where the expiry time is negative: the byte of the first is forgotten |
| HeavyHitter.InvisibleExactly | vighhh/hhh_main.c:35-171 | after every run of packets up to a positive length, a forgotten prefix gets the bucket and the report it would have had, for every packet up to that length, if and only if that length is below the burst and the time to fill a bucket at most 2^63, or no length is configured |
| HeavyHitter.AgedIsClosed | vighhh/hhh_main.c:43-46 | expiry level by level keeps every tracked prefix's ancestors, at least as recent |
| HeavyHitter.UpdateIsClosed | vighhh/hhh_main.c:83-171 | a packet keeps every tracked prefix's ancestors, however many levels it gets through |
| HeavyHitter.AlwaysClosed | vighhh/hhh_main.c:181-208 | in every state of every run, with packets from both sides, every tracked prefix has its ancestors tracked, at least as recent |
| HeavyHitter.ShorterIsTracked | vighhh/hhh_main.c:83-171 | in every state of every run, the first bits of a tracked prefix, as many as any shorter configured length, are tracked, at least as recently |
| HeavyHitter.ReportNamesPrefix | vighhh/hhh_main.c:155-179 | a report names the first bits of the packet's source, as many as a configured length, and no others |
| HeavyHitter.StepProjects | vighhh/hhh_main.c:83-208 | seen from one prefix of one level the whole function is a single token bucket |
| HeavyHitter.RunProjects | vighhh/hhh_main.c:83-208 | a run is, for each prefix, a run of one bucket |
| HeavyHitter.UnnoticedBytes | vighhh/hhh_main.c:130-179 | while no packet of a prefix is stopped or reported, that bucket forwards exactly the bytes of the prefix |
| HeavyHitter.HonestDetects | vighhh/hhh_main.c:83-179 | under the condition, addresses that agree in their first bits, as many as a configured length, and of which no packet is stopped or reported in a window, have sent at most burst + floor(rate * length / 10^9) in it |
| HeavyHitter.Realize | vighhh/hhh_main.c:83-208 | every run of one bucket that forwards all its packets happens in the heavy hitter, at every level, unnoticed |
| HeavyHitter.DetectsExactly | vighhh/hhh_main.c:35-208 | in every run, for every configured length, address and window, what the addresses that agree with it in that many first bits send unnoticed is within the rate, if and only if the condition on rate and burst holds |
| HeavyHitter.SlowDetectsExactly | vighhh/hhh_main.c:35-208 | at a rate of at most 10^9 that is so if and only if the products of the code fit in 64 bits |
| HeavyHitter.ShortIsAdmissible | vighhh/hhh_main.c:71 | a packet no longer than the burst meets the source's assertion at every level |
| HeavyHitter.NeverAssertsExactly | vighhh/hhh_main.c:71 | for packets up to a length the assertion holds in every run if and only if that length is at most the burst, or no length is configured |
| HeavyHitter.StoppingSkipsNothing | vighhh/hhh_main.c:120-125 | when a full level stops a packet, no deeper level has a prefix of its source |
| HeavyHitter.HeavyHitter.constructor | vighhh/hhh_state.c:36-108 | one empty table for each configured length |
| HeavyHitter.HeavyHitter.ExpireEntries | vighhh/hhh_main.c:35-48 | exactly the prefixes below the threshold go, which is computed in signed 64-bit arithmetic, at every level |
| HeavyHitter.HeavyHitter.Allocate | vighhh/hhh_main.c:50-81 | a new prefix gets a bucket, unless the level is full |
| HeavyHitter.HeavyHitter.Spend | vighhh/hhh_main.c:130-170 | the bucket of a known prefix is refilled and charged, or found unable to pay |
| HeavyHitter.HeavyHitter.Walk | vighhh/hhh_main.c:93-171 | the loop over the 32 lengths charges the configured levels in order and stops exactly at the first full level without the prefix |
| HeavyHitter.HeavyHitter.UpdateBuckets | vighhh/hhh_main.c:83-179 | charges the levels in order until one is full, keeps the hierarchy, and reports the longest prefix that cannot pay, if no level was full |
| HeavyHitter.HeavyHitter.Process | vighhh/hhh_main.c:181-208 | one packet is one step of the run semantics, with its report; forwards between the two devices |
| SpecTranslator.EndsWithReturn | validator/translate-spec.py:255-260 | finds a return exactly when one is among the statements of the block itself |
| SpecTranslator.Translator.constructor | validator/translate-spec.py:16-22 | no header has been taken off |
| SpecTranslator.Translator.Translate | validator/translate-spec.py:262-333 | the loop with its early breaks produces the structural translation and restores the header stack |
| SpecTranslator.Translator.TranslateFirst | validator/translate-spec.py:193-253 | one statement, with what follows taken in where the translator nests it |
| SpecPreservation.ReturnIsReached | validator/translate-spec.py:255-260 | a block with a return among its own statements never falls through |
| SpecPreservation.StackIsUnread | validator/translate-spec.py:193-223 | statements that pop no header read the same from any headers |
| SpecPreservation.Preserves | validator/translate-spec.py:262-333 | a well-scoped specification and its translation come to the same on every input on which what follows a return would do nothing and no header popped in a branch is missing later: same failures, same demands, same values, no undeclared name |
| SpecPreservation.SameObservations | validator/translate-spec.py:349-355 | on such inputs the translation with its final state check accepts exactly the observations the early-return reading allows |
| SpecPreservation.TidyIsPreserved | validator/translate-spec.py:291-304 | a specification in which nothing follows a return keeps its meaning on every input |
| SpecPreservation.FlaggedIsQuiet | viglb/spec.py:18-50 | the flag idiom of the load balancer's specification makes what follows a return do nothing, on every input |
| SpecRunOn.MergeMeets | validator/translate-spec.py:163-174 | two demands are met together exactly where they are compatible and the merged demand is met |
| SpecRunOn.Runs | validator/translate-spec.py:262-333 | on every input the translation of every well-scoped specification does what reading on asks: returns demand and do not end, headers popped in a branch are back after it |
| SpecExactness.AskedExactly | validator/translate-spec.py:349-355 | two readings ask for the same of every observation exactly when they have the same demand and the same state |
| SpecExactness.KeepsMeaningExactly | validator/translate-spec.py:262-355 | for every well-scoped specification and every input, the translation keeps the meaning for every observation if and only if reading on asks for the same as the reading in which a return ends the specification |
| SpecExactness.RunsOnAfter | validator/translate-spec.py:291-304 | after a return in a conditional with an else-branch the translation also demands what follows |
| SpecExactness.ReturnedExactly | validator/translate-spec.py:291-304 | for such a conditional the translation keeps the meaning for every observation if and only if reading what follows, after the return, asks for nothing new and leaves the state |
| SpecExactness.PopsAgain | validator/translate-spec.py:193-223 | after a conditional that falls through the translation reads what follows from the headers before the conditional |
| SpecExactness.PoppedExactly | validator/translate-spec.py:193-223 | for a conditional that falls through having popped headers the translation keeps the meaning for every observation if and only if what follows asks for the same from the headers before the conditional as from those after it |
| SpecExactness.ReturnIsForgotten | validator/translate-spec.py:294-297 | a specification that loses its meaning because what follows is checked too |
| SpecExactness.PopIsForgotten | validator/translate-spec.py:193-223 | a well-scoped specification that loses its meaning because a header popped in a branch is popped again, for any two different protocols and complete headers |
| PowerOfTwo.BitOfAnd | libvig/proof/mod-pow2.c:181-226 | the recursive conjunction has exactly the common bits |
| PowerOfTwo.MaskIsRemainder | libvig/proof/mod-pow2.c:181-226 | masking with 2^m - 1 is the remainder by 2^m, for every number |
| PowerOfTwo.MaskExactly | libvig/proof/mod-pow2.c:181-226 | masking with c - 1 is the remainder by c for every number if and only if c is a power of two |
| PowerOfTwo.PowerExactly | libvig/proof/mod-pow2.c:501-557 | a positive number has no bit in common with its predecessor if and only if it is a power of two |
| PowerOfTwo.IsPowerOf2 | vigcl/cl_config.c:24-36 | the halving loop answers yes exactly for powers of two |

## Left out

- FlowTable.FlowTable.KeyAt: the vector of keys is a sequence; borrowing and returning its cells is not modelled.
- HashMap.HashMap.Put: keys are values, not references to cells of the key vector; the power-of-two variant of the map is not modelled apart from its mask (`PowerOfTwo`).
- HashTable.Fill: failing allocation and the release of the working arrays are not modelled.
- TokenBucket.WithinExactly: runs may last longer than the 2^63 nanoseconds of the source's clock. With rate 1 and burst 2^54, for example, the condition fails only by a pause of 2^63 nanoseconds, which no run of the program has.
- Policer.KeepsRateExactly: the same; the half that says the rate is kept holds for the program as it stands.
- Policer.DividingKeepsRateExactly: the same.
- HeavyHitter.DetectsExactly: the same.
- Nat.Nat.GetExternal: for an index out of bounds, which the contract of the allocator excludes, the source reads memory outside the allocator; the model reports `OutOfBounds` and leaves the table alone.
- Nat.OnlyReplies: packets whose index is out of bounds count as packets that change nothing; `StaysInBoundsExactly` says when there are none.
- Nat.RoundTripExactly: the same holds for packets out of bounds between the packets of the flow.
- PolicerFirewall.PolicerFirewall.Process: what is left of the state after the division by zero is not promised.
- HeavyHitter.HeavyHitter.UpdateBuckets: reports the heavy hitter as a result, where the source only logs it; the width of addresses is a parameter, 32 in the source.
- SpecTranslator.Translator.Translate: text, indentation, `#define`, imports and header constructors with a base object are not modelled; names are not rendered to strings, so that a field and a variable never clash.
- SpecPreservation.Preserves: well-scoping (no name used outside its block, no object bound twice) is demanded, not checked by the translator.
- Reposition, next-index and activity operations of the locking allocator: no property of the network functions rests on them.
- The counting sketch, connection limiter and port-scan detector: they rest on structures whose cleanup code is not settled.
- The bridge, the static bridge, the forwarder and the variants of NAT and policer: the same table with easier claims.
- Drivers, packet chunk borrowing, checksums, configuration parsing and symbolic-execution models: input and output, or data.
- Locks and transactions of the concurrent variants: each operation is one step.
