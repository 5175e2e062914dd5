# Counting networks, modelled in Dafny

This project models the sequential core of a Rust crate of counting
networks after Aspnes, Herlihy and Shavit. A counting network is a set of
balancers on wires. Each balancer sends the tokens reaching it to its two
output ports in turn. In a bitonic network the tokens come out on the
outputs round robin, so a counter that hands out the value of the bucket a
token reaches, and raises it by the width, never repeats and never skips.

The model is split by the crate's structure:

- `bitonic_wires.dfy` (`BitonicWires`): the recursive builder of
  `src/networks/bitonic.rs`, which is repeated in `src/bitonic_network.rs`.
  It covers `construct_bitonic`, `merge_networks`, `split_even_odd` and
  `merge_wires`. The heap of balancers is an arena: a pointer is an index
  into a sequence of nodes. Each node keeps its two ports. Beside it the
  arena records the two wire segments that feed each balancer.
  `merge_wires` is also given as the loop the source runs
  (`MergeWiresLoop`), proved equal to the recursive definition.
- `bitonic_links.dfy` (`BitonicLinks`) and `bitonic_build.dfy`
  (`BitonicBuild`): what the builder guarantees.
  - Every wire passes the same number of balancers.
  - The input indices are a permutation of the range.
  - Neighbouring inputs share a first-layer balancer.
  - Every segment is used exactly once.
  - Every port points at the balancer its segment feeds.
- `bitonic_counts.dfy` (`Balancing`): the quiescent token counts of the
  same recursion on numbers of tokens, and the step property of
  `Bitonic[w]`. The step property says the output counts never differ by
  more than one and never favour a later output.
- `bitonic_flow.dfy` (`BitonicFlow`) and `bitonic_path.dfy`
  (`BitonicPath`): the counts of the real arena agree with those
  functions. One token's walk raises exactly the balancers on its path. So
  the walk leaves on output `Sum(tokens) % width`.
- `bitonic_network.dfy` (`BitonicNetworks`): the class `BitonicNetwork`.
  - `new` attaches the outputs and lists the balancers layer by layer,
    sorted by wire value, with a stable sort.
  - `traverse` enters at `balancers[slot / 2]` and calls `next` until it
    reaches an output.
  - Each balancer's counter is a field of the object that `next` raises.
    The `n`-th token to leave gets output `n % width`, whatever input it
    entered by.
  - The legacy `new(width, outputs)` and `num_layers()` of
    `src/bitonic_network.rs` are the same class's `WithWidth` and
    `NumLayersOf`. Its `traverse`, `merge_wires`, `merge_networks`,
    `split_even_odd` and `construct_bitonic` are the same code as in
    `src/networks/bitonic.rs`, so the same members model them.
- `counters.dfy` (`Counters`): `CountingBucket` and
  `BitonicCountingNetwork` of `src/counters.rs` and `src/counter.rs`.
  Bucket `i` always holds the next value of the form `i + k * width`, so
  the `n`-th call of `next` returns `n`.
- `common.dfy` (`ArenaNetwork`): the generic `Network` of
  `src/networks/common.rs`.
  - Its segment arena is built from any list of balancer pairs.
  - Its toggle bits start set.
  - `traverse` walks from the last segment of the chosen wire down to an
    output.
- `hash_table.dfy` (`HashTable`, `HashTables`): `IntegerHashTable` of
  `src/hash_table.rs`.
  - It probes linearly over an array of `2 * capacity` `u32` words, with
    key 0 meaning an empty slot.
  - The table keeps the hash function it probes with as a field. The
    constructor sets it to the crate's `hash`, which is modelled with its
    wrapping `u32` arithmetic and proved to be a bijection on `u32`. The
    table's properties hold for any hash function.
  - A ghost map `contents` is the abstract state.
- `util.dfy` (`Cochain`): `generate_cochain` and the four prefix tables
  of `src/util.rs`.

The thread-dependent input slot (`hash_single` of the thread id) is a
parameter `hash` of every `traverse` and `next`.

## Model

| member | source | states |
|---|---|---|
| Balancing.Evens | src/networks/bitonic.rs:429-446 | the even-position half of `split_even_odd`: element `i` is element `2i` of the input, in order |
| Balancing.Odds | src/networks/bitonic.rs:429-446 | the odd-position half of `split_even_odd`: element `i` is element `2i + 1` of the input, in order |
| Balancing.SplitEvenOdd | src/networks/bitonic.rs:429-446 | `split_even_odd` partitions the wires: wire `i` lands at position `i / 2` of the even half or the odd half, as its parity says, and the two halves hold every wire of the input exactly as often as the input |
| Balancing.MergeCounts | src/networks/bitonic.rs:448-483 | through `merge_wires`, output `2i` carries what port 0 of the balancer joining pair `i` sends, and output `2i + 1` what port 1 sends |
| Balancing.MergeCountsSum | src/networks/bitonic.rs:448-483 | a layer of `merge_wires` neither creates nor loses tokens |
| Balancing.MergeCountsStep | src/networks/bitonic.rs:511 | the last layer of a merger turns two step sequences whose sums differ by at most one into a step sequence |
| Balancing.StepEvensOdds | src/networks/bitonic.rs:505-506 | splitting a step sequence into its even and odd positions gives two step sequences |
| Balancing.MergerStep | src/networks/bitonic.rs:501-513 | `Merger[2k]` keeps every token and turns two step inputs into a step output |
| Balancing.BitonicStep | src/networks/bitonic.rs:485-499 | `Bitonic[w]` keeps every token and its output counts have the step property, whatever entered each input |
| Balancing.NextOutput | src/networks/bitonic.rs:252-256 | when one more token turns step counts `y` into step counts with output `j` raised, then `j == Sum(y) % \|y\|`: tokens leave round robin |
| BitonicWires.Join | src/networks/bitonic.rs:455-479 | one round of `merge_wires`: a new balancer is appended, fed by the segments the two wires end in; the upper wire leaves it by port 0 and the lower by port 1 |
| BitonicWires.PointLastAt | src/networks/bitonic.rs:460-472 | the port a wire last left by now points at the new balancer, and a wire with no balancer leaves the nodes alone |
| BitonicWires.MergeWiresLoop | src/networks/bitonic.rs:448-483 | the loop builds the same arena and wires as one `Join` per pair, in pair order |
| BitonicWires.MergeWires | src/bitonic_network.rs:289-324 | `merge_wires` returns twice as many wires as there are pairs and allocates one balancer per pair |
| BitonicWires.MergeWiresPair | src/networks/bitonic.rs:475-479 | output `2i` is upper wire `i` extended by port 0 of the `i`-th new balancer, and output `2i + 1` is lower wire `i` extended by its port 1 |
| BitonicWires.MergeWiresArena | src/networks/bitonic.rs:452-458 | the balancers `merge_wires` adds come after the existing ones, and balancer `i` of them is fed by pair `i` |
| BitonicWires.MergeNetworks | src/networks/bitonic.rs:501-513 | `merge_networks` returns twice as many wires as each half holds. What it builds is stated by the lemmas about it: `Balancing.MergerStep` with `BitonicFlow.MergeNetworksCounts` (its outputs have the step property), `BitonicLinks.MergeNetworksDepth` (equal depth), `BitonicLinks.MergeNetworksSize` (balancer count) and `BitonicLinks.MergeNetworksValues` (input indices kept) |
| BitonicWires.MergeNetworksStep | src/networks/bitonic.rs:505-511 | the unfolding of `merge_networks` above two wires, which the inductions over it use: upper-even is merged with lower-odd, then upper-odd with lower-even on the grown arena, and the two results are joined by `merge_wires` |
| BitonicWires.MergeNetworksGrows | src/networks/bitonic.rs:501-513 | `merge_networks` only appends balancers, and every wire it returns ends at an input or an existing port |
| BitonicLinks.MergeNetworksDepth | src/networks/bitonic.rs:501-513 | on `2m` wires of equal depth, `merge_networks` adds `log2(m) + 1` balancers to every wire, so paired wires always have equal history length, as the `debug_assert` at line 453 expects |
| BitonicLinks.MergeNetworksSize | src/networks/bitonic.rs:501-513 | `merge_networks` on `2m` wires allocates the balancers of `Merger[2m]`: two `Merger[m]` and one layer of `m` |
| BitonicLinks.MergeNetworksValues | src/networks/bitonic.rs:501-513 | every input index occurs as often among the returned wires as among the given ones |
| BitonicLinks.MergeNetworksUses | src/networks/bitonic.rs:501-513 | segments are conserved: every segment is taken by a balancer or ends a returned wire as often as it was taken or ended a given wire before, and each port of a new balancer exactly once |
| BitonicLinks.MergeNetworksPorts | src/networks/bitonic.rs:460-472 | every port points at the balancer its segment feeds, and balancers are only fed by earlier ones |
| BitonicLinks.MergeNetworksFirstHops | src/networks/bitonic.rs:501-513 | the first balancer of every wire takes that wire's input |
| BitonicFlow.MergeWiresCounts | src/networks/bitonic.rs:448-483 | once no token is in flight, the wires `merge_wires` returns carry the counts of `Balancing.MergeCounts` |
| BitonicFlow.MergeNetworksCounts | src/networks/bitonic.rs:501-513 | the wires `merge_networks` returns carry the counts of the merger of what the given wires carried |
| BitonicFlow.MergeHalvesCounts | src/networks/bitonic.rs:493-497 | two halves counting like the halves of a range, once merged, count like `Bitonic` of the whole range, for any tokens injected |
| BitonicBuild.ConstructBitonic | src/networks/bitonic.rs:485-499 | `construct_bitonic(width, index)` gives `width` wires. They all pass the same number of balancers. Their input indices are `index .. index + width`, each once, and neighbouring inputs meet in one first-layer balancer. Every new port and input is used exactly once, the quiescent counts are those of `Bitonic[width]`, and the ports point where the feeds say |
| BitonicBuild.MergeHalves | src/networks/bitonic.rs:493-498 | two built halves merged by `merge_networks` are a built network of twice the width |
| BitonicBuild.BaseFacts | src/networks/bitonic.rs:486-492 | the single bare wire of width one is a built network |
| BitonicPath.PathDistinct | src/networks/bitonic.rs:267-269 | a walk passes balancers in allocation order, so it passes no balancer twice |
| BitonicPath.PathTotalsAll | src/networks/bitonic.rs:261-269 | one more token on input `s` raises the count of every balancer on its walk by one and leaves the others unchanged |
| BitonicPath.PathWireCounts | src/networks/bitonic.rs:261-272 | one more token on input `s` is one more token on the wire the walk ends on, and on no other wire |
| BitonicPath.PathOutput | src/networks/bitonic.rs:258-273 | the walk from any input ends on output `Sum(tokens) % width` |
| BitonicNetworks.NumLayers | src/networks/bitonic.rs:375-377 | `num_layers(width)` is the number of balancers every wire passes |
| BitonicNetworks.LayersDepth | src/bitonic_network.rs:216-218 | `C(log2(width) + 1, 2)` is the number of balancers every wire of `Bitonic[width]` passes |
| BitonicNetworks.LayerRange | src/networks/bitonic.rs:379-384 | layer `l` is a range of `layer_width` slots |
| BitonicNetworks.LayersTile | src/bitonic_network.rs:220-225 | consecutive layers are adjacent, and `n` layers fit in `n * layer_width` slots |
| BitonicNetworks.LayerSlots | src/networks/bitonic.rs:177-185 | the histories of the wires of `Bitonic[width]` add up to `num_layers * (width / 2) * 2`, as the `debug_assert` checks |
| BitonicNetworks.AttachOutputs | src/networks/bitonic.rs:190-195 | after the attach loop, the port a wire ends in points at that wire's output, and every other port is unchanged |
| BitonicNetworks.AttachedLinked | src/networks/bitonic.rs:187-195 | after the attach loop no port dangles: each leads to the balancer that takes its segment or to the output whose wire ends in it |
| BitonicNetworks.PopFront | src/networks/bitonic.rs:424-426 | `pop_front` removes the first hop of a wire and keeps its value |
| BitonicNetworks.PopLayer | src/networks/bitonic.rs:206-217 | one round lists the first balancer of every wire exactly once, with the value of a wire it is first on, and leaves each wire without its first hop |
| BitonicNetworks.SortByValue | src/networks/bitonic.rs:219 | `sort_by_key` returns a permutation of the layer |
| BitonicNetworks.SortSorted | src/networks/bitonic.rs:219 | the sorted layer is ordered by wire value |
| BitonicNetworks.SortDistinct | src/networks/bitonic.rs:206-219 | sorting keeps every balancer of a layer once |
| BitonicNetworks.LayerBalancers | src/networks/bitonic.rs:205-224 | the flat list of balancers starts with the first round's layer, sorted by value |
| BitonicNetworks.FirstLayerSorted | src/bitonic_network.rs:134-153 | the first layer, sorted, has `width / 2` balancers, and entry `i` takes inputs `2i` and `2i + 1` |
| BitonicNetworks.SlotEntry | src/networks/bitonic.rs:261-262 | input `slot` enters at `balancers[slot / 2]`, which takes that input |
| BitonicNetworks.Assemble | src/networks/bitonic.rs:177-224 | the network `new` builds is linear and topologically ordered, its wires count like `Bitonic[width]`, no port dangles, and the first layer is listed in input order |
| BitonicNetworks.FollowAdvance | src/networks/bitonic.rs:267-269 | the port a walk leaves by leads to a later balancer that takes the token's segment, or to the output whose wire ends in it |
| BitonicNetworks.WalkEnds | src/networks/bitonic.rs:258-273 | a walk ending on output `k` has `k == Sum(tokens) % width`, and the counters afterwards are the quiescent counts with the extra token |
| BitonicNetworks.BitonicNetwork.constructor | src/networks/bitonic.rs:162-227 | a network over the given outputs, of width their number, with every counter at zero |
| BitonicNetworks.BitonicNetwork.WithWidth | src/bitonic_network.rs:90-156 | the same network, with the width given and equal to the number of outputs |
| BitonicNetworks.BitonicNetwork.Width | src/networks/bitonic.rs:240-242 | the width is the number of outputs, a power of two |
| BitonicNetworks.BitonicNetwork.NumLayersOf | src/bitonic_network.rs:165-167 | `num_layers()` is the number of balancers every wire passes |
| BitonicNetworks.BitonicNetwork.Outputs | src/networks/bitonic.rs:286-288 | one output per input |
| BitonicNetworks.BitonicNetwork.ToggleUp | src/networks/bitonic.rs:109-112 | the counter is raised by one and the old count's parity is returned, so the `k`-th token leaves by port `k % 2` |
| BitonicNetworks.BitonicNetwork.Next | src/networks/bitonic.rs:104-107 | `next` leaves by the port the old count's parity selects and raises that balancer's count alone |
| BitonicNetworks.BitonicNetwork.Traverse | src/networks/bitonic.rs:258-273 | the token enters at `hash % width`, and the call returns `outputs[n % width]` when `n` tokens left before it |
| BitonicNetworks.BitonicNetwork.Follow | src/networks/bitonic.rs:261-270 | the loop of `traverse` follows the toggles from the first balancer to the wire of an output, raising each balancer it passes by one |
| BitonicNetworks.TraverseMany | src/networks/bitonic.rs:248-256 | successive calls return successive outputs, round robin, whatever the hashes |
| BitonicNetworks.TraverseFresh | src/networks/bitonic.rs:549-557 | on a new network, the first `width` calls return the outputs in order (the same scenario is the traversal test of `src/bitonic_network.rs`) |
| Counters.ServedIff | src/counters.rs:74-81 | when bucket `i` holds the next value it hands out, it holds `n` if and only if `n % width == i` |
| Counters.NextPending | src/counters.rs:77-78 | after value `n`, the bucket that handed it out holds `n + width`, and every bucket holds the next value it hands out |
| Counters.StartPending | src/counters.rs:53 | bucket `i` starts at `i`, the first value it hands out |
| Counters.CountingBucket.constructor | src/counters.rs:12-16 | a bucket starts at its starting value |
| Counters.CountingBucket.Get | src/counters.rs:18-20 | `get` returns the value held |
| Counters.CountingBucket.Inc | src/counter.rs:20-22 | `inc` adds the increment to the value held |
| Counters.BitonicCountingNetwork.constructor | src/counters.rs:52-55 | a counter of the given width, with bucket `i` at `i`, that has handed out nothing |
| Counters.BitonicCountingNetwork.Legacy | src/counter.rs:34-39 | the same counter, built through `new(width, outputs)` |
| Counters.BitonicCountingNetwork.Width | src/counters.rs:68-70 | the width is the number of buckets, a power of two |
| Counters.BitonicCountingNetwork.Next | src/counters.rs:74-81 | the `n`-th call returns `n`, whatever the hashes |
| Counters.MakeBuckets | src/counter.rs:35-37 | `width` distinct new buckets, bucket `i` holding `i` |
| Counters.NextMany | src/counters.rs:112-143 | `n` successive calls return `count .. count + n - 1`, in order, each once |
| ArenaNetwork.LatestIsLast | src/networks/common.rs:123-130 | a wire leads to its own end segment exactly when no pair so far touched it, and otherwise to the balancer of the last pair that did |
| ArenaNetwork.LatestBefore | src/networks/common.rs:123-130 | a wire only leads to segments placed before the next balancer |
| ArenaNetwork.ShapedInBounds | src/networks/common.rs:238-248 | the arena `new` builds passes `check_segment_ptrs_in_bounds` |
| ArenaNetwork.Reach | src/networks/common.rs:175-193 | a walk from any segment ends at an output and leaves as many toggle bits |
| ArenaNetwork.RouteDescends | src/networks/common.rs:180-182 | a walk passes balancers of strictly decreasing index, each at most once |
| ArenaNetwork.ReachFlips | src/networks/common.rs:180-182 | a walk flips the bit of a balancer exactly when it passes it |
| ArenaNetwork.Step | src/networks/common.rs:38-47 | one step goes to an earlier segment and leads to the same end and bits as the walk from the balancer |
| ArenaNetwork.ArenaShaped | src/networks/common.rs:144-154 | the laid-out segments are the ends followed by balancers that point only at earlier segments |
| ArenaNetwork.PlacePairs | src/networks/common.rs:117-130 | pair `p` points at the segments its two wires led to before it, and afterwards every wire leads to its latest pair's balancer |
| ArenaNetwork.LayOut | src/networks/common.rs:133-154 | the ends come first, outputs in reverse order, then one balancer per pair at `width + p` |
| ArenaNetwork.Network.constructor | src/networks/common.rs:110-169 | `width + pairs` segments: ends in reverse output order, then the balancers pointing where `PlacePairs` says, with every bit set; each wire's start segment is its latest balancer or its own end; the bounds check holds |
| ArenaNetwork.Network.Width | src/networks/common.rs:171-173 | the width is the number of outputs, at least one |
| ArenaNetwork.Network.Outputs | src/networks/common.rs:195-197 | one output per wire |
| ArenaNetwork.Network.ToggleUp | src/networks/common.rs:49-52 | returns the old bit as a port and flips it, so a new balancer sends its first token to port 1 and then alternates |
| ArenaNetwork.Network.NextSegment | src/networks/common.rs:38-47 | goes to an earlier segment by the port `toggle_up` returns |
| ArenaNetwork.Network.Traverse | src/networks/common.rs:175-193 | enters at the start segment of wire `hash % width` and returns the output of the walk, leaving the bits the walk leaves |
| HashTable.XorWord | src/hash_table.rs:8-10 | the exclusive or inside `hash` keeps a `u32` a `u32` |
| HashTable.ShuffleTwice | src/hash_table.rs:8-10 | the step `x.wrapping_shr(16) ^ x` undoes itself |
| HashTable.ScrambleUndo | src/hash_table.rs:8-9 | the wrapping multiplication by `0x45d9f3b` is undone by multiplying by its inverse modulo `2^32` |
| HashTable.Hash | src/hash_table.rs:6-12 | `hash` is the defined composition of shuffles and multiplications, and it has an inverse `Unhash`: it is a bijection on `u32` |
| HashTable.HashInjective | src/hash_table.rs:6-12 | two different keys never get the same hash |
| HashTable.Mask | src/hash_table.rs:64 | the masked index is below the capacity |
| HashTable.MaskMod | src/hash_table.rs:112 | the model's masking step is the remainder by the capacity, which is what `idx & (capacity - 1)` computes for the power-of-two capacities the table has |
| HashTable.ProbeNext | src/hash_table.rs:62-76 | one past a probed slot, masked again, is the next slot of the probe sequence, wrapping around |
| HashTable.DistProbe | src/hash_table.rs:62-76 | probing visits no slot twice within `capacity` steps |
| HashTable.StoreEntry | src/hash_table.rs:66-67 | writing the key and value words of slot `j` changes slot `j` only |
| HashTable.CountKeys | src/hash_table.rs:91-92 | the number of keys held is the number of filled slots |
| HashTable.EmptySlot | src/hash_table.rs:72-77 | with fewer filled slots than slots some slot is empty, so probing for an absent key stops |
| HashTable.Found | src/hash_table.rs:118-127 | where probing first stops, the key is present if and only if that slot holds it, and then that is the key's slot |
| HashTable.Fill | src/hash_table.rs:79-96 | writing a new key and its value into the first empty slot of its probe sequence keeps the table, with the key added and one more slot filled |
| HashTable.Overwrite | src/hash_table.rs:99-101 | overwriting the value of a present key keeps the table, with the new value |
| HashTable.Seek | src/hash_table.rs:61-77 | the probing loop returns the first slot of the key's probe sequence that holds the key or is empty |
| HashTable.Insert | src/hash_table.rs:72-96 | where probing stops on a slot not holding the key, the key is absent, and storing it there gives a table holding one key more |
| HashTable.Replace | src/hash_table.rs:99-101 | where probing stops on the key, its value is the key's value, and overwriting it keeps the table with the new value |
| HashTables.IntegerHashTable.constructor | src/hash_table.rs:21-33 | a table of the given power-of-two capacity, empty, probing with `hash` |
| HashTables.IntegerHashTable.Size | src/hash_table.rs:42-44 | the size is the number of keys held |
| HashTables.IntegerHashTable.IsEmpty | src/hash_table.rs:46-48 | empty exactly when no key is held |
| HashTables.IntegerHashTable.Capacity | src/hash_table.rs:50-52 | the capacity is a power of two, never below the number of keys |
| HashTables.IntegerHashTable.Set | src/hash_table.rs:57-103 | the key maps to the new value afterwards; returns the old value if the key was present and nothing otherwise; the size grows by one exactly for a new key |
| HashTables.IntegerHashTable.Claim | src/hash_table.rs:79-96 | the empty-slot branch adds the key with its value and one to the size |
| HashTables.IntegerHashTable.Swap | src/hash_table.rs:99-101 | the found-key branch returns the key's old value, stores the new one, and keeps the size |
| HashTables.IntegerHashTable.Get | src/hash_table.rs:105-131 | returns the key's value if present and nothing otherwise |
| HashTables.IntegerHashTable.Stop | src/hash_table.rs:61-77 | probing for a present key, or in a table with a free slot, stops within `capacity` steps |
| HashTables.SetTwo | src/hash_table.rs:178-181 | setting two new keys returns nothing twice and adds two to the size |
| HashTables.SetFour | src/hash_table.rs:174-184 | setting four new keys in an empty table returns nothing four times and leaves a size of four |
| HashTables.GetFour | src/hash_table.rs:186-201 | each of the four keys gives back its value |
| HashTables.UpdateFour | src/hash_table.rs:203-218 | setting the four keys again returns the values they had |
| HashTables.InsertRetrieveUpdate | src/hash_table.rs:166-218 | a new table of 128 is empty with capacity 128, and the set, get and update scenario returns what the tests expect |
| Cochain.GenerateCochain | src/util.rs:54-68 | the nested loops emit, for each index of the range in order, one copy per prefix equal to its low `len(prefixes)` bits |
| Cochain.CochainCount | src/util.rs:57-65 | an index occurs once per prefix its low bits match when it lies in the range, and never otherwise |
| Cochain.CochainMembers | src/util.rs:54-68 | an index is emitted if and only if it lies in the range and its low bits are one of the prefixes |
| Cochain.NoDuplicates | src/util.rs:59-65 | with distinct prefixes no index is emitted twice |
| Cochain.CochainInRange | src/util.rs:59-65 | every emitted index lies in the range |
| Cochain.CochainSorted | src/util.rs:59-65 | the output is ascending |
| Cochain.EvenOddCounts | src/util.rs:74-102 | over `0..n` the even table emits the `(n + 1) / 2` even numbers and the odd table the `n / 2` odd ones |
| Cochain.Tables20 | src/util.rs:104-121 | over `0..20` the A table gives `0, 3, 4, 7, ..., 16, 19` and the B table `1, 2, 5, 6, ..., 17, 18` |
| Cochain.Tables1 | src/util.rs:110-124 | over `0..1` the A table gives `[0]` and the B table nothing |
| Cochain.Tables14 | src/util.rs:113-127 | over `0..14` the A table gives `0, 3, 4, 7, 8, 11, 12` and the B table `1, 2, 5, 6, 9, 10, 13` |

## Left out

- Concurrency is not modelled. That covers atomic orderings, `Send`/`Sync`, and the multi-threaded tests run as executions. Calls happen one at a time. `NextMany` covers the `concurrent_counting` test as a single-threaded sequence of calls with arbitrary hashes.
- The window in `next` between reading a bucket and raising it is left out, because it only matters under concurrency.
- The branch of `set` where a compare-and-swap loses to another thread is left out, for the same reason.
- The thread's input slot (`hash_single` of the thread id over the standard hasher) is a parameter `hash`. The properties hold for every value of it.
- Heap allocation, `NonNull` pointers, `Layout`, `AllocErr` and the `Drop` impls are not modelled. Pointers are indices into sequences.
- `slice_to_ptr_range` is not modelled. `check_segment_ptrs_in_bounds` becomes index bounds.
- The `PartialEq`, `Hash`, `Debug`, `Clone` and `From` impls are not modelled. They compare, hash or print, or rebuild through `new`.
- `log2_floor` and `binomial_coefficient` are not part of this model. `num_layers` is defined by what it counts, and `LayersDepth` proves that count equals `C(log2(width) + 1, 2)`.
- No `NetworkConfiguration` implementation is part of this model. The generic `Network::new` takes the balancer pairs as a parameter.
- BitonicNetworks.BitonicNetwork.constructor: requires a width of at least two. With one output the single wire has no balancer, and `Wire::last` fails on it.
- BitonicNetworks.BitonicNetwork.WithWidth: requires a width of at least two, for the same reason.
- Counters.BitonicCountingNetwork.constructor: requires a power-of-two width of at least two, which the network it builds asserts or needs.
- BitonicNetworks.LayerBalancers: the first round of the layering loop is written before the loop. Only that round's layer (the one `traverse` uses) is tied to the source's promise. The later layers are computed the same way but not specified.
- Counters.CountingBucket.Inc: bucket values are unbounded. The wrap-around of `usize` after `2^64` values is not modelled.
- HashTables.IntegerHashTable.Set: requires the key to be present or a free slot to exist. With the table full and the key absent, the source probes forever.
- HashTables.IntegerHashTable.Get: requires the key to be present or a free slot to exist, for the same reason.
- HashTables.IntegerHashTable.constructor: requires a capacity of at most `2^31`. Above that, `2 * idx + 1` would overflow the `u32` index.
- How well `hash` spreads keys over the slots is not stated. Only that it is a bijection on `u32` is proved. The table is proved for any hash function.
- The bitwise `idx & (capacity - 1)` is modelled as the remainder `idx % capacity`. The two agree only for a power-of-two capacity, which the constructor requires and `Valid` keeps.
- Cochain.GenerateCochain: requires fewer than 64 prefixes. Beyond that, `1 << prefixes.len()` overflows.
- The prefix tables' tests for `0..13` on the even and odd tables are covered by `EvenOddCounts` for every range length, not as separate scenarios.
