# A verified model of the index, the request protocol, the page pool and the hashing

This project models the parts of the key-value store that carry its correctness, and proves them.

- **The in-memory index.** A B-tree map from 64-bit hashes to index entries, changed in place: node surgery over value
  and child arrays, parent and position links, the root's link to the leftmost leaf, and the size and rightmost leaf kept
  in the root. It is modelled for every node capacity of at least 3, with unique keys and linear search inside nodes.
- **The object pool.** A free list threaded through an array of nodes.
- **The request protocol.** Producers and a worker exchanging request buffers over two rings; the worker's poller; the
  life of a request, in particular a GET, from its publication to its callback.
- **The page cache.** Levels with an index and an LRU list each, a free list, and a two-level table of frames pinned for
  internal nodes.
- **Hashing.** The table-driven checksum, jump consistent hashing under any rounding of its arithmetic, and the shuffle.

## How the B-tree proof is built

`Trees.Node` has the arrays and fields of a node, and its methods are the loops of the original. A *store* is a snapshot
of all nodes of a tree as values (`Rec`: values, children, links, and, as bookkeeping, height, in-order content and whether
the node lies on the left or right edge). `Linked` says that a store is a tree: levels, links in both directions, content,
edges. `Matches` says that the heap is as a store says. Each surgery is first a function on stores (`SplitStore`,
`MergeStore`, `Redistribute`, `AddLevel`, `DropLevel`, `Replaced`), about which everything is proved as lemmas on values,
and then a method on the heap that ends in a heap matching that function's value. `Off` says where in the whole order a
node's content starts; ranks, iterators and searches are stated with it.

`BTrees.BTree.Valid` is: linked, matching, every node holding between one value and its capacity (full capacity but for a
small leaf that is the root), the root's record of the rightmost leaf and of the size correct, and the whole order strictly
ascending. `Contents` is that order.

## Files

| file | holds |
|---|---|
| Sequences, Weave, Arrays | sequences without repetition, weaving of values and child contents, array loops |
| Trees | nodes, stores, what linked and matching mean |
| Splitting, Merging, Ranks, Rebalancing, Levels, Mending | surgeries on stores |
| Surgery, RootSurgery | the same surgeries on the heap |
| Choices | which rebalance, split or merge a full or a small node gets, as functions of numbers |
| Steps, InsertSteps, LeafSteps, EraseSteps | what a surgery means for the whole tree |
| Cursors, Places | iterators, searches, the place of an element, the height bound |
| BTree, OrderedMap, BTreeMap | the container, the plain map it stands for, its callers' interface |
| Pool | the object pool |
| WorkerSteps, Poll, Worker | the request protocol: its steps on values, a poll as a whole, the worker itself |
| PageCache | the page cache |
| Crc, KvUtil | checksum, bucket hashing, shuffle |

## Readings of the source

- Where `pagecache.c` mixes passing its cache by pointer and by value, it is read as one shared cache. `add_page_in_lru` and
  `bump_page_in_lru`, whose code is not there, append a newest entry and make an entry the newest.
- `get_page` follows a null pointer when the hash is not cached, the free list is empty, all frames are in use, no level from
  its own on has more pages than it must keep, and its own level is empty. Lower-numbered levels may well have pages to spare
  then. `map_internal_node_page` runs into an assertion when the hash is beyond the table, and into `assert(0)` when it is not
  pinned yet, the free list is empty, all frames are in use, and no level at all has more pages than it must keep. `GetPage`
  and `MapInternalNodePage` take every call and return `ok`, which is false exactly then; `StuckWhenPinned` and
  `StuckBesideSpare` reach such states from a new cache. `Run` makes calls until one of them is not ok.
- A level may be allowed to keep no page at all (`min_pages` 0). Its list can then lose its last entry by eviction, and the
  eviction leaves `newest_page` pointing at that entry; `add_page_in_lru` is assumed to take such a list as empty. With at
  least one page to keep, an eviction never empties a list (`EvictionKeepsOne`).
- `pool_header_init` is defined for 1 <= count < 2^32: its counter has 32 bits, and for no objects it would write before the array.
- The mark that `pool_release` tests is also on the last object of the free list, so one double release in each state passes
  the test; `MarkMeans` says exactly which.
- A ring may hold fewer buffers than were offered to it at start-up; those that did not fit never take part.
- The double-precision step of the bucket hash is any rounding that keeps the order, the integers up to 2^53 and 2^62, which
  every rounding mode of IEEE 754 double precision does; each operation and conversion is rounded by itself.
- RAND_MAX is 2^31 - 1. With n places left a draw reaches all of them exactly if (n - 1) * (RAND_MAX / n + 1) <= RAND_MAX, so
  for more than 46409 elements some arrangements never come up.
- I/O, clocks, the network and random draws are parameters.

## Model

| member | source | states |
|---|---|---|
| Trees.Node.constructor | src/btree/cpp-btree/btree.h:685-697 | a new node has room as its kind and capacity ask, no values, and the given parent |
| Trees.Node.SetChild | src/btree/cpp-btree/btree.h:574-578 | a child is stored and linked back |
| Trees.Node.InsertValue | src/btree/cpp-btree/btree.h:1429-1445 | the swaps amount to one insertion, and in an internal node all children behind the gap move up with their positions |
| Trees.Node.RemoveValue | src/btree/cpp-btree/btree.h:1448-1463 | the swaps amount to one removal, and an internal node closes up behind the child that goes |
| Trees.Node.RebalanceRightToLeft | src/btree/cpp-btree/btree.h:1466-1510 | values and children travel through the delimiter from the right node to the left, nothing lost or reordered, moved children re-linked |
| Trees.Node.RebalanceLeftToRight | src/btree/cpp-btree/btree.h:1513-1555 | the same in the other direction |
| Trees.Node.Split | src/btree/cpp-btree/btree.h:1558-1596 | lower part, delimiter to the parent, upper part to the new sibling, all links; for an insertion at the start all but one value move, at the end none, otherwise half, the sibling holding as many or one more |
| Trees.Node.Merge | src/btree/cpp-btree/btree.h:1599-1628 | left, delimiter and right become one node; the parent loses the delimiter and the right child |
| Trees.Node.Swap | src/btree/cpp-btree/btree.h:1631-1668 | two nodes exchange values and children, and the children's parent links follow |
| Weaving.WeaveConcat | src/btree/cpp-btree/btree.h:1599-1628 | the in-order sequence of a joined node is that of its parts around the delimiter |
| Splitting.SplitLinked | src/btree/cpp-btree/btree.h:1558-1596 | a split keeps every link, level and recorded content, and the order of the whole tree |
| Merging.MergeLinked | src/btree/cpp-btree/btree.h:1599-1628 | so does a merge |
| Ranks.MergeThenSplit | src/btree/cpp-btree/btree.h:1558-1628 | splitting where two nodes were merged undoes the merge |
| Ranks.SplitOff | src/btree/cpp-btree/btree.h:1558-1596 | no node changes its place in the order when another is split |
| Rebalancing.RedistributeLinked | src/btree/cpp-btree/btree.h:1466-1555 | rebalancing in either direction keeps the tree and its order: it is a merge followed by a split elsewhere |
| Rebalancing.RedistributeDeals | src/btree/cpp-btree/btree.h:1466-1555 | the two neighbours and the value between them hold the same values in the same order afterwards, as many on the left as asked |
| Levels.AddLevelLinked | src/btree/cpp-btree/btree.h:2072-2080 | pushing the root's contents down one level keeps the tree |
| Levels.DropThenAdd | src/btree/cpp-btree/btree.h:2072-2080 | losing a level and adding it again gives the same tree |
| Levels.DropLevelLinked | src/btree/cpp-btree/btree.h:2184-2190 | pulling the only child's contents up into the root keeps the tree and its order |
| Mending.MendLinked | src/btree/cpp-btree/btree.h:1429-1463 | after one node's values changed, bringing recorded contents up to date along the path to the root gives a tree again |
| Mending.MendRoot | src/btree/cpp-btree/btree.h:1429-1463 | the whole order changes exactly where that node's content lay |
| Ranks.SliceAt | src/btree/cpp-btree/btree.h:2391-2417 | every node's content is the stretch of the whole order that starts at its offset |
| Surgery.SplitNode | src/btree/cpp-btree/btree.h:1558-1596 | the split on the heap is the split of the store |
| Surgery.RebalanceNodesRightToLeft | src/btree/cpp-btree/btree.h:1466-1510 | rebalancing on the heap is the redistribution of the store |
| Surgery.RebalanceNodesLeftToRight | src/btree/cpp-btree/btree.h:1513-1555 | the same in the other direction |
| Surgery.MergeNodes | src/btree/cpp-btree/btree.h:1599-1628 | the merge on the heap is the merge of the store |
| RootSurgery.GrowLeafRoot | src/btree/cpp-btree/btree.h:2217-2224 | a larger leaf takes over the values of the leaf root |
| RootSurgery.NewInternalRoot | src/btree/cpp-btree/btree.h:2063-2070 | a new internal root above a leaf root knows its rightmost leaf and size |
| RootSurgery.AddRootLevel | src/btree/cpp-btree/btree.h:2072-2079 | the root object stays while everything in it moves into a new child, including the momentary self-loop of that child |
| RootSurgery.DropRootLevel | src/btree/cpp-btree/btree.h:2184-2190 | the root object stays while its only child's contents move into it |
| RootSurgery.StandAlone | src/btree/cpp-btree/btree.h:539-542 | a last leaf becomes a root that is its own leftmost leaf |
| InsertSteps.DealStep | src/btree/cpp-btree/btree.h:2004-2052 | rebalancing for an insertion keeps tree, sizes, order and everything below, and the insertion gap is found again with room |
| InsertSteps.SplitStep | src/btree/cpp-btree/btree.h:2083-2099 | so does a split, whichever half the gap falls into; only the node that is inserted into may be empty |
| InsertSteps.MadeCounts | src/btree/cpp-btree/btree.h:2003-2052 | after a rebalance for an insertion the neighbour has gained, and the full node lost, exactly as many values as chosen |
| LeafSteps.InsertStep | src/btree/cpp-btree/btree.h:2233-2234 | inserting into a leaf inserts at that rank of the whole order, and the iterator is at the new element |
| LeafSteps.RemoveStep | src/btree/cpp-btree/btree.h:1886-1887 | removing from a leaf removes at that rank of the whole order |
| LeafSteps.UpdateStep | src/btree/cpp-btree/btree.h:1877-1879 | replacing a value of an internal node replaces one element of the order and moves no leaf |
| EraseSteps.PromoteStep | src/btree/cpp-btree/btree.h:1872-1887 | swapping in the predecessor and removing it from its leaf removes the internal value from the order |
| EraseSteps.JoinStep | src/btree/cpp-btree/btree.h:2103-2113 | a merge keeps order, height, right edge, and follows the erasure gap; the parent may be left empty |
| EraseSteps.RefillStep | src/btree/cpp-btree/btree.h:2139-2162 | a rebalance after an erasure leaves no node empty and follows the gap |
| EraseSteps.RepairedCounts | src/btree/cpp-btree/btree.h:2130-2162 | after a rebalance for an erasure the small node has gained, and the neighbour lost, exactly as many values as chosen |
| EraseSteps.DropStep | src/btree/cpp-btree/btree.h:2184-2190 | the tree loses exactly one level and nothing else |
| EraseSteps.AloneStep | src/btree/cpp-btree/btree.h:2178-2183 | the last leaf, alone, is the same order in one level less |
| Cursors.Increment | src/btree/cpp-btree/btree.h:777-782 | from element k to element k + 1, or to the end behind the last |
| Cursors.IncrementClimb | src/btree/cpp-btree/btree.h:1673-1684 | the climb stops at the next element, and comes back when there is none |
| Cursors.IncrementDescend | src/btree/cpp-btree/btree.h:1685-1692 | the next element after an internal value is the first of a leaf |
| Cursors.Decrement | src/btree/cpp-btree/btree.h:786-791 | from element k, or the end, to element k - 1; at the first element the position becomes -1 in place |
| Cursors.DecrementDescend | src/btree/cpp-btree/btree.h:1723-1730 | the element before an internal value is the last of a lower leaf |
| Cursors.InternalLast | src/btree/cpp-btree/btree.h:2194-2204 | from a gap to the element behind it, null exactly at the end |
| Cursors.LowerBoundIn | src/btree/cpp-btree/btree.h:594-603 | the first value in the node whose key is not less |
| Cursors.UpperBoundIn | src/btree/cpp-btree/btree.h:379-382 | the first value in the node whose key is greater |
| Cursors.InternalLocate | src/btree/cpp-btree/btree.h:2243-2254 | the descent ends at the gap that divides all smaller keys from all others |
| Cursors.LocateUpper | src/btree/cpp-btree/btree.h:2290-2303 | the descent ends at the gap that divides all keys not greater from all others |
| Cursors.RankAt | src/btree/cpp-btree/btree.h:777-792 | a position in a node denotes the element of the whole order at its rank |
| Places.LevelApart | src/btree/cpp-btree/btree.h:2391-2417 | two nodes of one level lie apart, with at least one element between them |
| Places.PlaceUnique | src/btree/cpp-btree/btree.h:794-799 | an element has only one place: iterators at it are equal |
| Places.DenotesUnique | src/btree/cpp-btree/btree.h:794-799 | iterators are equal exactly if they denote the same element, or both the end |
| Places.NodeBound | src/btree/cpp-btree/btree.h:1149-1163 | what lies below a node of height h is at least 2^(h+1) - 1 elements |
| Choices.RoomFor | src/btree/cpp-btree/btree.h:2003-2052 | a full node is split exactly if both neighbours are missing, full, or one short of full with the new value going to their side; what moves fills the neighbour for an insertion at the far end, and otherwise leaves the two within one of each other |
| Choices.RepairFor | src/btree/cpp-btree/btree.h:2116-2165 | a small node is merged exactly if it fits with a neighbour; what it takes leaves the neighbour with as many values or one more; it is never left alone empty or between two neighbours |
| BTrees.BTree.RebalanceWithLeft | src/btree/cpp-btree/btree.h:2003-2026 | values move to the left sibling exactly if the bias and the room there allow it, exactly as many as the bias says, with the gap followed; otherwise nothing changes |
| BTrees.BTree.RebalanceWithRight | src/btree/cpp-btree/btree.h:2028-2052 | the same with the right sibling |
| BTrees.BTree.RaiseRoot | src/btree/cpp-btree/btree.h:2060-2081 | a leaf root gets a root above it, an internal root gives its contents to a new child; size and rightmost leaf stay known |
| BTrees.BTree.MakeParentRoom | src/btree/cpp-btree/btree.h:2054-2059 | the parent gets room, recursively, while the full node and its gap stay as they were |
| BTrees.BTree.SplitFull | src/btree/cpp-btree/btree.h:2083-2099 | the split leaves nothing, all but one, or half of the values, as the insertion position biases it, keeps order and height and follows the rightmost leaf |
| BTrees.BTree.RebalanceOrSplit | src/btree/cpp-btree/btree.h:1994-2100 | terminates on the distance to the root, keeps the whole order and size, and returns the same gap in a node with room; which rebalance is made with how many values, or that the node is split, is the choice of RoomFor, and a split leaves nothing, all but one, or half by the insertion position |
| BTrees.BTree.MakeRoom | src/btree/cpp-btree/btree.h:2215-2232 | a full small root gives way to one of twice its capacity, but no more than a full node's; a full node is rebalanced or split; a node with room stays as it is; the size counts the value to come |
| BTrees.BTree.InternalInsert | src/btree/cpp-btree/btree.h:2207-2235 | inserts at the given rank, also when given an internal position, and returns an iterator at the new element |
| BTrees.BTree.InsertUnique | src/btree/cpp-btree/btree.h:1750-1770 | inserts exactly if the key is absent, at its place in the order; otherwise changes nothing; returns the key's iterator; height grows by at most one; the first root is a leaf with room for one |
| BTrees.BTree.MergeInto | src/btree/cpp-btree/btree.h:2103-2113 | merges two siblings and follows the rightmost leaf |
| BTrees.BTree.TryMergeOrRebalance | src/btree/cpp-btree/btree.h:2116-2165 | order and gap are kept; which merge or rebalance is made with how many values, or none, is the choice of RepairFor; afterwards only the parent of a merged node may be empty |
| BTrees.BTree.TryShrink | src/btree/cpp-btree/btree.h:2168-2192 | an empty root loses a level or the last node; the gap is kept |
| BTrees.BTree.PromoteAndRemove | src/btree/cpp-btree/btree.h:1872-1887 | erasing an internal value removes it from the order by way of its predecessor's leaf |
| BTrees.BTree.RebalanceUp | src/btree/cpp-btree/btree.h:1896-1917 | the walk to the root restores every invariant and ends at the gap where it began |
| BTrees.BTree.Erase | src/btree/cpp-btree/btree.h:1869-1929 | removes exactly that element and returns the iterator at its successor, or the end, also for internal values |
| BTrees.BTree.EraseUnique | src/btree/cpp-btree/btree.h:1941-1949 | removes the entry with the key if there is one and says whether; height shrinks by at most one |
| BTrees.BTree.EraseAt | src/btree/cpp-btree/btree.h:1869-1929 | the same for a valid container and any iterator at an element |
| BTrees.BTree.Begin | src/btree/cpp-btree/btree.h:944-946 | the first element, or the end of an empty tree |
| BTrees.BTree.End | src/btree/cpp-btree/btree.h:950-952 | the end |
| BTrees.BTree.Next | src/btree/cpp-btree/btree.h:777-782 | one element further |
| BTrees.BTree.Prev | src/btree/cpp-btree/btree.h:786-791 | one element back, also from the end |
| BTrees.BTree.EqualIterators | src/btree/cpp-btree/btree.h:794-799 | iterators at ranks are equal exactly if the ranks are: -- undoes ++, and a walk ends after as many steps as there are elements |
| BTrees.BTree.LowerBound | src/btree/cpp-btree/btree.h:970-973 | the first element whose key is not less |
| BTrees.BTree.UpperBound | src/btree/cpp-btree/btree.h:980-983 | the first element whose key is greater |
| BTrees.BTree.Find | src/btree/cpp-btree/btree.h:1065-1068 | the element with the key, or the end |
| BTrees.BTree.FindClosest | src/btree/cpp-btree/btree.h:1082-1085 | the first element whose key is not less |
| BTrees.BTree.Size | src/btree/cpp-btree/btree.h:1140-1144 | the number of elements |
| BTrees.BTree.CountLevels | src/btree/cpp-btree/btree.h:1149-1163 | the walk around by the leftmost leaf counts the levels |
| BTrees.BTree.HeightBound | src/btree/cpp-btree/btree.h:1149-1163 | a tree of h levels holds at least 2^h - 1 elements |
| BTrees.BTree.CheckValues | src/btree/cpp-btree/btree.h:2393-2404 | for a node holding anything at all: passes exactly if it holds between one value and its capacity, in ascending order within the bounds |
| BTrees.BTree.InternalVerify | src/btree/cpp-btree/btree.h:2390-2417 | every check below a node succeeds and the count is the number of elements there |
| BTrees.BTree.Verify | src/btree/cpp-btree/btree.h:1978-1991 | the tree's check of itself succeeds in every valid state |
| OrderedMap.ToMapInsert | src/btree/btree.cc:36-40 | inserting at the cut of an absent key is adding it to the map |
| OrderedMap.ToMapRemove | src/btree/btree.cc:30-34 | removing an element is removing its key from the map |
| OrderedMap.StretchFirst | src/btree/btree.cc:42-61 | a stretch of the order from the cut of a key on is the list of the smallest such keys |
| OrderedMap.FirstUnique | src/btree/btree.cc:42-61 | a map, a key and a bound determine that list |
| OrderedMap.AnswersUnique | src/btree/btree.cc:14-61 | a run of calls has only one possible list of answers |
| BTreeMaps.BTreeMap.Find | src/btree/btree.cc:14-25 | found exactly if the map has the key, with the map's entry |
| BTreeMaps.BTreeMap.Insert | src/btree/btree.cc:36-40 | the map gains the entry unless it has the key: the first insertion wins |
| BTreeMaps.BTreeMap.Delete | src/btree/btree.cc:30-34 | the map loses the key |
| BTreeMaps.BTreeMap.FindN | src/btree/btree.cc:42-61 | the first n entries from the key on, ascending, all there are if fewer |
| BTreeMaps.BTreeMap.ForallKeys | src/btree/btree.cc:64-72 | one call for each key of the map, ascending |
| BTreeMaps.RunAll | src/btree/btree.cc:14-61 | every sequence of calls answers as a plain map with first-insert-wins does, whose values before and after each call are given |
| Pools.ThreadedOnce | src/pool.c:17-43 | the links determine the free list, so the chain has no cycle and no second reading |
| Pools.MarkMeans | src/pool.c:60-67 | exactly when the test for a double release passes: for objects handed out and for the last free one |
| Pools.DoubleReleaseUnseen | src/pool.c:60-67 | one state in which the test does not see a double release |
| Pools.TakenThreaded | src/pool.c:51-54 | unlinking the first node leaves the rest of the list threaded |
| Pools.PutThreaded | src/pool.c:69-70 | linking a node in front leaves a list threaded |
| Pools.DivideBack | src/pool.c:61 | dividing an object's offset by the object size gives back its index |
| Pools.Pool.constructor | src/pool.c:17-43 | all objects free, in order, none handed out |
| Pools.Pool.Get | src/pool.c:45-58 | the object freed last, never one that is out; null exactly when none is free |
| Pools.Pool.Release | src/pool.c:60-73 | the object becomes the first free one, and the source's assertion holds for every object that is out |
| Pools.Pool.Run | src/pool.c:45-73 | over every run of gets and releases of objects that are out, the pool is a stack, given before and after each call: a get pops the object on top, a release pushes |
| Pools.Pool.Conserved | src/pool.c:45-73 | free objects and objects out always add up to the count |
| Workers.Worker.constructor | src/worker.c:234-288 | the free ring holds as many buffers as fit, everything else is empty |
| Workers.Worker.TakeBuffer | src/worker.c:141-148 | a producer gets a buffer that nobody else holds, for the order it came with |
| Workers.Worker.FillBuffer | src/worker.c:121-139 | only the producer's own buffer changes, to the fields of its own order |
| Workers.Worker.SubmitBuffer | src/worker.c:150-155 | the used ring has room, so its assertion holds; what is published has the fields of the producer's order, and no order is published twice |
| Workers.Worker.Enqueue | src/worker.c:157-172 | one more published request, with the caller's fields |
| Workers.Worker.PollCount | src/worker.c:52-66 | the batch is exactly the least of the waiting requests, the free objects and the free I/O slots |
| Workers.Worker.PollRequeue | src/worker.c:77-80 | requests to be resubmitted go to the front, in reverse order, none lost |
| Workers.Worker.PollDequeue | src/worker.c:86-89 | the ring still has as many requests as were counted, so its assertion holds |
| Workers.Worker.PollCopy | src/worker.c:92-108 | the pool has an object for each request of the batch; the object gets the request's fields and is queued behind all others |
| Workers.Worker.PollNext | src/worker.c:113-115 | the handler gets the first queued request, with the fields that the producer of this very request gave |
| Workers.Worker.PollRecycle | src/worker.c:109-110 | all buffers of the batch fit into the free ring, so its assertion holds |
| Workers.Worker.ProcessGet | src/kv_get.c:47-91 | which of the outcomes follows: answered as absent, put aside behind a modification, answered from the cache, waiting for memory or for data; what the lookup leaves in the request; nothing else changes |
| Workers.Worker.ChunkReady | src/kv_get.c:31-45 | memory has arrived: the same request now waits for its data |
| Workers.Worker.LoadDone | src/kv_get.c:7-29 | the object is released and the request's own callback called, for the first time, with the I/O error exactly if the load failed |
| Workers.Worker.ProcessOther | src/worker.c:23-43 | a request of unknown kind is answered with an error and its object released; one of another kind is answered with its handler's status, put aside, or kept |
| Workers.Worker.ProcessOne | src/worker.c:12-45 | what becomes of the first queued request, by its kind: a GET is answered as absent or from the cache, put aside, or waits, by what it finds; an unknown kind is refused; others follow their handler |
| Workers.Worker.PollDrain | src/worker.c:113-117 | everything queued is handed over, in order, each with the verdict due to it |
| Workers.Worker.Poll | src/worker.c:47-119 | a whole poll terminates and takes in exactly the first waiting requests that fit, giving their buffers back in order; it hands over what was put aside, last first, then what was queued, then the new requests in order, each with the fields it was published with; and what becomes of each hand-over, with its status, follows from its kind, its flags and what its handler finds |
| WorkerSteps.MovesCalls | src/kv_get.c:7-91 | of all steps only a load that comes back and a hand-over call back, at most once, and with which status |
| WorkerSteps.MovesAnswered | src/kv_get.c:16-28 | with every callback, and only then, the request's object is released and no longer waits |
| WorkerSteps.MovesWaiting | src/kv_get.c:31-91 | which steps make a request wait, for memory or for data, and which end that |
| WorkerSteps.ProducerMeans | src/worker.c:121-155 | what a producer's steps change: rings, its own buffer and the logs, and nothing of the worker's |
| WorkerSteps.PollerCourse | src/worker.c:52-117 | the poller's phases follow each other in this order only, and what it counts |
| WorkerSteps.PollerBuffers | src/worker.c:86-110 | as many buffers as were counted, the first on the ring, go to the batch and from there back, in order |
| WorkerSteps.PollerObjects | src/worker.c:77-107 | which steps put what into the queues and into objects, and that no poller step calls back or hands over |
| WorkerSteps.HandlerMeans | src/worker.c:113-117 | what a hand-over takes, puts aside, logs and leaves in the object |
| Workers.Worker.StepOnce | src/worker.c:47-172 | each step of a producer, the poller, a handler or a completion does, when it can be made, exactly what it should, and otherwise nothing |
| Workers.Worker.Run | src/worker.c:47-172 | over every interleaving of these steps the invariant survives and nothing logged is forgotten; every callback ever made was made by one step, a load or a hand-over, with the status that this step demands, and every such step makes it; every request that a handler ever got has the fields of the producer's call it came from |
| Workers.Worker.ObjectsConserved | src/worker.c:56-117 | free objects, queued, resubmitted and in-flight requests always add up to the pool |
| Workers.Worker.BuffersConserved | src/worker.c:86-155 | buffers are neither lost nor doubled, so no ring overflows |
| Workers.Worker.AllCalled | src/kv_get.c:7-29 | when nothing is under way, each published request has been handed over and answered exactly once, to its own callback and context |
| Workers.Worker.AllServed | src/worker.c:157-172 | when no producer is in the middle of a call either, each call ever made has been answered exactly once, to the callback and context that this call gave |
| Workers.CarriedAnswer | src/kv_get.c:15-28 | answering a request takes it from what is carried to what is answered |
| PageCaches.AddedAgrees | src/pagecache.c:28-46 | adding an absent hash keeps index and LRU list in agreement |
| PageCaches.EvictedAgrees | src/pagecache.c:153-163 | evicting the oldest entry keeps them in agreement |
| PageCaches.BumpedAgrees | src/pagecache.c:14-22 | making an entry the newest keeps them in agreement |
| PageCaches.PinnedAlone | src/pagecache.c:69-97 | a pinned frame is nowhere else |
| PageCaches.PageCache.FindInFreelist | src/pagecache.c:121-130 | the head of the free list, if there is one |
| PageCaches.PageCache.FindInLowerLevel | src/pagecache.c:132-163 | evicts the oldest page of the highest level that may lose one; fails exactly if no level may |
| PageCaches.PageCache.TakeFrame | src/pagecache.c:28-44 | a frame from the first source that has one; fails exactly if none has |
| PageCaches.PageCache.GetPage | src/pagecache.c:7-67 | exactly when a call can be served; then the hash becomes the newest of its level, a hit keeps its page, a miss adds an entry that is clean and holds no data yet and drops at most one other, all other entries keep their fields and order, and every frame keeps exactly one owner; otherwise nothing changes |
| PageCaches.FilledMeans | src/pagecache.c:24-66 | what a miss does to the levels: one newest hash, at most one dropped |
| PageCaches.PageCache.InternalNodeGet | src/pagecache.c:101-117 | making a list of empty slots on the way changes no slot |
| PageCaches.PageCache.InternalNodeInsert | src/pagecache.c:165-183 | the frame in hand becomes pinned to the hash; no other pin moves |
| PageCaches.PageCache.MapInternalNodePage | src/pagecache.c:70-97 | exactly when a call can be served; the page pinned at the first call is returned by every later one, and where the frame comes from |
| PageCaches.PageCache.Run | src/pagecache.c:7-97 | every run of calls goes on exactly as long as they can be served; all calls for one internal node return one page, calls for different ones different pages, and no page handed out for an internal node is handed out for anything else later |
| PageCaches.EvictionKeepsOne | src/pagecache.c:145-161 | a level that must keep a page keeps one when another is evicted |
| PageCaches.StuckWhenPinned | src/pagecache.c:46-92 | a state, reached from a new cache, in which neither kind of call can be served |
| PageCaches.StuckBesideSpare | src/pagecache.c:40-52 | a state, reached from a new cache, in which a level gets no page although a lower-numbered one has one to spare |
| PageCaches.PageCache.PinnedForever | src/pagecache.c:70-97 | in every reachable state a pinned frame is in its slot, not free, in no LRU list and pinned once |
| Crc.TableIs | src/kvutil.c:7-136 | each of the 256 entries is eight steps of its index |
| Crc.FeedByte | src/kvutil.c:138-148 | eight bits fed one by one are one exclusive or and eight steps |
| Crc.TableFeedsByte | src/kvutil.c:144-145 | one pass of the loop feeds the eight bits of a byte |
| Crc.SerialLinear | src/kvutil.c:138-148 | the checksum is linear on messages of equal length |
| Crc.SerialConcat | src/kvutil.c:138-148 | checksums compose over concatenation |
| Crc.ConcatShift | src/kvutil.c:138-148 | the checksum of a concatenation is that of the first part shifted by the length of the second, plus that of the second |
| Crc.MessageBitsAt | src/kvutil.c:143-146 | the bits of a message are those of its bytes, the lowest first |
| Crc.Crc64 | src/kvutil.c:138-148 | the table-driven loop computes the bit-serial reflected checksum |
| KvUtil.RoundedJumpAhead | src/kvutil.c:158 | however its operations are rounded, a jump goes at least one bucket further and fits into 64 bits |
| KvUtil.ExactJump | src/kvutil.c:158 | what a jump computes where no operation rounds: with d the upper 31 bits of the key plus 1, (b + 1) * 2^31 / d rounded down |
| KvUtil.RoundedAhead | src/kvutil.c:158 | so the jump in double precision is one of those that all of the following is about |
| KvUtil.BucketInRange | src/kvutil.c:150-161 | for every jump that goes ahead, the bucket is below the number of buckets |
| KvUtil.BucketsOnlyGrow | src/kvutil.c:150-161 | for every jump that goes ahead, with more buckets a key stays or moves to a new bucket |
| KvUtil.Hash | src/kvutil.c:150-161 | the loop starts in bucket 0 and jumps, each time with the next state of the key, until a jump leaves the buckets; the result is the last bucket it was in, or with no buckets the all-ones word |
| KvUtil.KvHash | src/kvutil.c:163-167 | checksum and bucket together, with the rounded jump; counts from 2^31 on read as negative |
| KvUtil.NextKeyIs | src/kvutil.c:157 | the next state is the last one times 2862933555777941757, plus 1, modulo 2^64 |
| KvUtil.ReachWithin | src/kvutil.c:177 | a draw never reaches beyond the array |
| KvUtil.ReachIs | src/kvutil.c:177 | how far a draw reaches, as a quotient |
| KvUtil.KvShuffle | src/kvutil.c:173-183 | place by place, each element is exchanged with the one its draw reaches; the elements stay |
| KvUtil.AllReached | src/kvutil.c:173-183 | when a draw reaches every place at each step, every arrangement comes up for some draws |
| KvUtil.NotReached | src/kvutil.c:177 | when at some step it does not, there is an arrangement of distinct elements that never comes up |
| KvUtil.ShuffleReaches | src/kvutil.c:173-183 | every arrangement of distinct elements comes up exactly if there are fewer than 46410 of them |

## Left out

- `btree_free`, `clear`, copying and swapping of whole trees, erasing ranges, insertion with a hint, `increment_by`: they add members, not difficulty.
- Compare-to specialisations, multi-map variants, allocators, dumping, byte statistics and templates of the B-tree.
- Deallocation: nodes that leave the tree are simply no longer part of it.
- Workers.Worker.ProcessOther: the handlers of PUT, DELETE and scans are not part of this model; they finish a request, put it aside or keep it, in any way.
- The flags and memory references of index entries that a GET sets and clears are inputs of `ProcessGet`, not state; in particular "getting" is one bit that the first completion clears.
- The order among resubmitted requests is what the code makes of it, reversed at each poll, not first in, first out.
- Sizes of a worker's memory block, SPDK threads and rings beyond bounded queues, page-chunk and I/O managers.
- PageCaches.PageCache.PlaceOf: finds by search the list entry that the code keeps a pointer to in the index.
- How full the nodes of the tree are beyond holding at least one value: the choices above promise no more.
- The LRU lists are sequences, not linked cells, and the free list is a sequence, not links through the free pages with a
  counter; flushing a dirty page before its eviction is a to-do in the code.
- `src/bpt.c`, `src/bpt.h`, `src/index.c` (fragments), the merge iterator of `src/kvs.c`, the formatting tool, the benchmark, time and CPU masks.
