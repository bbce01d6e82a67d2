# Binary buddy allocator

This project models the binary buddy allocator of `buddy/buddy.c`. The
allocator manages one arena of 2^N bytes. Every block in the arena has a
size of 2^k bytes, where k is the block's *order*, and starts at an offset
that is a multiple of its size. Each block begins with a header holding four
fields: `used`, `order`, `next` and `previous`. There is one doubly linked
free list per order, 0 through N, and `freelist[k]` holds the head of the
list for order k.

- `init_mem` empties every list and makes the whole arena one free block of
  order N.
- `block_order` computes the order that a request, header included, needs.
- `add_free_block` pushes a block on the front of its list.
- `remove_free_block` unlinks a block from its list.
- `split_free_block` halves a block until it reaches the wanted order. At each
  step it registers the upper half as free.
- `get_free_block` takes the head of the wanted list. When that list is
  empty, it splits the first non-empty list above it instead.
- `my_alloc` hands out the address just past the header, or `NULL`.
- `my_free` merges the freed block with its buddy while the buddy is free and
  has the same order, and then pushes the result on its list.
- `main` allocates one `int`, frees it, and then ends.

The model is imperative where the source is. `Allocator.BuddyAllocator` is a
class that owns the arena and the free-list heads as two arrays:

- `memory` holds one `Header` slot per byte offset.
- `freelist` holds the head offset of each list, with `Nil` standing for
  `NULL`.

Each C function becomes a method with a loop where the C has one. Beside the
arrays, the class keeps a ghost `pool` that gives their meaning:

- a map from every block's start offset to its order, which says how the
  arena is partitioned;
- the free list of every order as a sequence of offsets.

The invariant `Valid` ties the arrays to the pool. It requires:

- the blocks tile the arena exactly, and each block is aligned to its size;
- every list is correctly linked through the `next`/`prev` fields;
- every listed block has the list's order;
- a block's header shows its order, and `used` exactly when the block is on
  no list;
- no free block of an order below N has its buddy on the same free list
  (`Coalescing.Coalesced`): every merge `my_free` could make has been made.

Each method is specified against functions of its inputs:

- The list operations and the header stores are specified by the header
  sequence they leave behind. `add_free_block` gives `FreeLists.Pushed` and
  `remove_free_block` gives `FreeLists.Spliced` and `FreeLists.SplicedHead`.
  One halving step of `split_free_block` gives `Pools.SplitWrite`.
- `init_mem` leaves the initial pool `Pools.InitPool`.
- `split_free_block`, `get_free_block`, `my_alloc` and `my_free` are
  specified by what they do to the pool: `SplitDown`, `Acquire`, `Allocate`
  and `Release`, all defined in `AllocatorSpec`.

The lemmas about these functions state:

- when an allocation fails;
- that the block handed out has the requested order and is on no list;
- that the arena stays tiled;
- that freeing the one block allocated after `init_mem` gives back the
  initial state;
- that `my_alloc` adds exactly the block it serves to the blocks handed out
  (those on no list), and `my_free` takes away exactly the block it is given;
  every other block handed out stays a block of the same order on no list,
  so it can still be freed;
- that a pool with nothing handed out is the single free block of order N
  that `init_mem` makes. With the two facts above, once every block handed
  out has been freed, in any order, the arena is back to that block.
  `Allocator.TwoAllocsFreed` works this through for two allocations freed in
  either order.

The modules are:

- `Options`: the optional result that stands for a pointer or `NULL`.
- `Bits`: powers of two, alignment, and the XOR of the buddy computation.
- `Orders`: `block_order` and the request check of `my_alloc`.
- `Layout`: the partition of the arena, the split and merge of one block, and
  the buddy offset.
- `FreeLists`: the header record, linked lists over the header array, push
  and unlink.
- `Pools`: the abstract state, its invariant `Sound`, and one lemma per step
  showing that the step preserves `Sound`.
- `AllocatorSpec`: the operations on the abstract state and their
  properties.
- `Coalescing`: the invariant that no two free buddies of the same order
  are left unmerged, its preservation by every operation, and the
  consequence that a pool in which every block is free is the initial arena.
- `Handouts`: the blocks handed out, and how allocating and freeing change
  them.
- `Allocator`: the class with its arrays, the methods, `main`, and the
  idempotence of `init_mem`.

`block_order` computes the least order k >= 1 with n < 2^k, a strict
inequality. The loop keeps `acc = 2^order - 1` and runs while `n > acc`. The
comment above it (`buddy/buddy.c:35`) reads "compute X that X is the min
value that makes log2(X) >= n". The function returns an order, not a size,
so we read the comment as asking for the least k with 2^k >= n. Under that
reading the comment and the code differ when n is a power of two of at least 2,
and the model follows the code (`Orders.OrderFor`).

## Model

| member | source | states |
|---|---|---|
| Orders.OrderFor | buddy/buddy.c:37-45 | the order of a request of n bytes is at least 1, a block of that order holds more than n bytes, and the next smaller order, when it is at least 1, holds at most n |
| Orders.OrderForLeast | buddy/buddy.c:37-45 | the computed order is the least order k >= 1 with n < 2^k |
| Orders.OrderForUnique | buddy/buddy.c:37-45 | any order k >= 1 with n < 2^k, where k - 1 does not already fit n, is the computed order |
| Orders.OrderForMonotone | buddy/buddy.c:37-45 | a larger request never gets a smaller order |
| Orders.OrderForFits | buddy/buddy.c:118-119 | the order is within N exactly when the request is smaller than the whole arena |
| Orders.BlockOrder | buddy/buddy.c:37-45 | the loop ends with acc = 2^order - 1 >= n, and the order it returns is the least order that fits n |
| Orders.RequestOrder | buddy/buddy.c:114-121 | `my_alloc` refuses exactly when n = 0 or n plus the header does not fit below 2^N; otherwise the order is at most N and its block holds n plus the header |
| Orders.RequestOrderOf | buddy/buddy.c:118-121 | an equation of the definition of RequestOrder: with k = block_order(n + header), a non-zero request is refused when k > N and served at order k otherwise |
| Orders.RequestOrderAsWritten | buddy/buddy.c:118 | the order `my_alloc` computes with a wrapping 64-bit sum: it agrees with block_order(n + header) when the sum does not wrap, and otherwise it is the order of the wrapped sum, whose block is at most twice that sum plus 2 bytes |
| Orders.WrappedRequestUndersized | buddy/buddy.c:118 | with a 64-bit `size_t`, a request of SIZE_MAX bytes wraps to header - 1 bytes and gets a block of at most twice the header size |
| Bits.Xor | buddy/buddy.c:141 | bitwise exclusive-or of two offsets, zero exactly when they are equal, so a block is never its own buddy |
| Bits.XorPow2 | buddy/buddy.c:140-141 | for an offset aligned to 2^o, `pos ^ (1 << o)` is pos + 2^o when pos is aligned to 2^(o+1), and otherwise pos - 2^o, which is aligned to 2^(o+1) |
| Layout.InitialTiling | buddy/buddy.c:27-31 | one block of order N at offset 0 tiles the arena |
| Layout.Buddy | buddy/buddy.c:140-142 | the buddy of an aligned block is the other half of the block of the next order that contains it |
| Layout.Survivor | buddy/buddy.c:147-151 | after the swap, the merged block starts at the lower of the block and its buddy, which is aligned to the next order, and the pair is that offset and that offset plus 2^o |
| Layout.BuddySymmetric | buddy/buddy.c:140-141 | the buddy of an aligned block is aligned to the same order, and its buddy is the block again |
| Layout.BuddyIsBlock | buddy/buddy.c:141-143 | in a tiled arena, the buddy of a block smaller than the arena starts a block of no greater order, so the header the free loop reads is a live one |
| Layout.SplitKeepsTiling | buddy/buddy.c:85-88 | halving a block keeps the arena tiled, and the upper half started no block before |
| Layout.MergeKeepsTiling | buddy/buddy.c:147-153 | joining a block with a buddy of the same order into the block of the next order keeps the arena tiled |
| Layout.WholeArenaBuddyOutside | buddy/buddy.c:139-143 | once the freed block has grown to order N, it starts at 0 and the buddy offset the loop computes is 2^N, past the end of the arena |
| FreeLists.Remove | buddy/buddy.c:65-74 | removing a block from a list keeps every other entry and drops that block |
| FreeLists.RemoveAt | buddy/buddy.c:65-74 | removing the i-th entry of a list without duplicates keeps the other entries in their order |
| FreeLists.Pushed | buddy/buddy.c:50-59 | the headers after `add_free_block`: h becomes free, of order k, with the old head as `next` and no `previous`; the old head gets h as `previous`; every other header is unchanged |
| FreeLists.Spliced | buddy/buddy.c:66-73 | the headers after `remove_free_block`: the predecessor's `next` becomes h's successor, the successor's `previous` becomes h's predecessor, and every other header is unchanged |
| FreeLists.SplicedHead | buddy/buddy.c:66-70 | the list head changes only when h has no predecessor, and then it becomes h's successor |
| FreeLists.PushKeepsList | buddy/buddy.c:50-59 | pushing a block that is not on the list gives a correctly linked list with that block in front and the block as the new head |
| FreeLists.PushKeepsRegistry | buddy/buddy.c:50-59 | pushing a block that is on no list changes only the list of that order, and every list stays linked |
| FreeLists.SpliceKeepsList | buddy/buddy.c:65-74 | unlinking the i-th entry leaves the list without it, correctly linked, with the head updated when the entry was first |
| FreeLists.SpliceKeepsRegistry | buddy/buddy.c:65-74 | unlinking a listed block changes only its own list, which loses exactly that block, and every list stays linked |
| FreeLists.WriteOutsideKeepsRegistry | buddy/buddy.c:126-127 | rewriting the header of a block that is on no list leaves every list linked |
| Pools.InitSound | buddy/buddy.c:22-32 | whatever the arena held before, `init_mem` leaves a sound state with one free block of order N on list N |
| Pools.InitialState | buddy/buddy.c:22-32 | a sound state whose pool is the initial one has exactly the list heads and the first header that `init_mem` writes |
| Pools.HeadsMatch | buddy/buddy.c:97-103 | in a sound state, `freelist[k]` is NULL exactly when list k is empty, and otherwise it is the first block on it |
| Pools.ListedAt | buddy/buddy.c:80 | a listed block sits on the list of the order its header holds, so `remove_free_block(h->order, h)` finds it |
| Pools.OnlyList | buddy/buddy.c:50-59 | a block can be on no list other than the one of its own order |
| Pools.UnlistSound | buddy/buddy.c:65-74 | unlinking a listed block keeps the state sound with that block in hand |
| Pools.SplitRoom | buddy/buddy.c:85-86 | the block being split has order at least 1, and its upper half lies inside the arena and started no block |
| Pools.SplitWrite | buddy/buddy.c:85-88 | the headers after one halving step: the upper half becomes a free header of order c, linked before the old head; the old head gets the upper half as `previous`; the kept half records order c with its `used` flag and `next` unchanged, and its `previous` too unless it was the old head; every other header is unchanged |
| Pools.SplitSound | buddy/buddy.c:85-88 | one halving step registers the upper half on the list of the lower order, gives the kept half that order, and keeps the state sound |
| Pools.BuddyCheck | buddy/buddy.c:141-143 | the buddy's header says free and of the same order exactly when the buddy is on the list of that order |
| Pools.MergeSound | buddy/buddy.c:147-153 | unlinking a listed buddy and merging leaves the lower offset as a block of the next order in hand, in a sound state |
| Pools.InsertSound | buddy/buddy.c:144 | pushing the block in hand on the list of its order gives a sound state with nothing in hand |
| Pools.ClaimSound | buddy/buddy.c:126-127 | marking the block in hand used with its order gives a sound state |
| Pools.MergeUnlinkAsWritten | buddy/buddy.c:147-152 | the unlink as written changes only the head of the list of the merge's order |
| Pools.FreeAsWrittenLosesBlock | buddy/buddy.c:147-152 | in a sound arena of 16 bytes, freeing the upper block at 4 makes the as-written unlink empty list 2, which still holds 0 and 12, while unlinking the real buddy 0 keeps 12 at its head |
| AllocatorSpec.FirstFrom | buddy/buddy.c:101-106 | the scan stops at the first non-empty list from order i on, and fails exactly when all of them are empty |
| AllocatorSpec.SplitDown | buddy/buddy.c:79-91 | splitting from order o down to k pushes the upper half of order j on list j for each j from k to o - 1, and leaves every other list as it was |
| AllocatorSpec.SplitDownTiling | buddy/buddy.c:79-91 | after the split, the block has the wanted order and the arena is still tiled |
| AllocatorSpec.SplitDownCreates | buddy/buddy.c:79-91 | in a tiled arena, the split creates exactly one block of each order j it passes, at h + 2^j, and keeps every other block |
| AllocatorSpec.SplitDownHalves | buddy/buddy.c:85-88 | the split creates exactly one block of order j at h + 2^j for each j it passes, and keeps every other block |
| AllocatorSpec.Acquire | buddy/buddy.c:96-109 | `get_free_block(k)` fails exactly when every list from k up to N is empty |
| AllocatorSpec.AcquireAt | buddy/buddy.c:97-106 | when lists k to i - 1 are empty and list i is not, the block handed out is the head of list i, split down to order k; for i = k that is the head of list k, taken off its list and not split |
| AllocatorSpec.AcquireYields | buddy/buddy.c:96-109 | the block handed out has order k and is on no list, the arena stays tiled, and there are still N + 1 lists |
| AllocatorSpec.Allocate | buddy/buddy.c:114-131 | a zero or oversized request, and any refusal, leave the pool unchanged; an address handed out lies at least a header past the arena start |
| AllocatorSpec.AllocateNull | buddy/buddy.c:114-131 | `my_alloc` returns NULL exactly when n = 0, or the request does not fit below 2^N, or every list from its order up is empty |
| AllocatorSpec.AllocateYields | buddy/buddy.c:118-128 | a served request gets a block of order block_order(n + header) that holds it, is on no list, and leaves the arena tiled |
| AllocatorSpec.Release | buddy/buddy.c:136-156 | `my_free` on the pool, with the order-N guard: the number of lists is kept. ReleasePushes, ReleaseCoalesced and ReleaseOutstanding state what it does |
| AllocatorSpec.ReleaseMerges | buddy/buddy.c:143-154 | the merging equation of the definition of Release: a block whose buddy is listed with the same order merges, and freeing goes on from the lower offset with the next order |
| AllocatorSpec.ReleaseStops | buddy/buddy.c:143-145 | the stopping equation of the definition of Release: a block at order N, or one whose buddy is not listed with its order, is pushed on its own list |
| AllocatorSpec.ReleasePushes | buddy/buddy.c:136-156 | freeing a block of order o that is on no list, in a tiled pool where every listed block is a block of its list's order, pushes one block. That block has an order o' with o <= o' <= N, is aligned to its size, contains the freed block and is on list o'. The arena stays tiled, and listed blocks still have their list's order |
| AllocatorSpec.MergeKeeps | buddy/buddy.c:146-153 | one merge round keeps the arena tiled and every listed block of its list's order; the merged block starts at the lower offset, has the next order, covers the freed block and is on no list |
| AllocatorSpec.ReleaseToInit | buddy/buddy.c:136-156 | freeing block 0 of order j, when the arena holds only it and free upper halves of orders j to N - 1, merges back to one free block of order N |
| AllocatorSpec.AcquireFromInit | buddy/buddy.c:96-109 | from the initial state, taking a block of order k hands out offset 0 and leaves one free upper half on each list from k to N - 1 |
| AllocatorSpec.AllocFreeRoundTrip | buddy/buddy.c:158-165 | after `init_mem`, a request that fits is served at the offset just past the header, and freeing it restores the initial pool |
| Coalescing.InitCoalesced | buddy/buddy.c:22-32 | after `init_mem` no free block has a free buddy of its order |
| Coalescing.UnlistCoalesced | buddy/buddy.c:65-74 | taking a block off a list never leaves a free buddy pair behind |
| Coalescing.InsertCoalesced | buddy/buddy.c:143-145 | pushing a block whose buddy is not on its list, or whose order is N, leaves no free buddy pair |
| Coalescing.UpperHalfCoalesced | buddy/buddy.c:85-87 | pushing the upper half of order j of h on list j, where h is not listed and no entry's buddy is, leaves no entry of list j whose buddy is on it |
| Coalescing.SplitDownCoalesced | buddy/buddy.c:79-91 | each upper half that splitting pushes has the block in hand as its buddy, so the split leaves no free buddy pair |
| Coalescing.AcquireCoalesced | buddy/buddy.c:96-109 | `get_free_block` leaves no free buddy pair |
| Coalescing.AllocateCoalesced | buddy/buddy.c:114-131 | `my_alloc` leaves no free buddy pair, whether it serves or refuses |
| Coalescing.ReleaseCoalesced | buddy/buddy.c:136-156 | `my_free` leaves no free buddy pair: merges only take blocks off lists, and the block it pushes has no free buddy of its order |
| Coalescing.OrdersAtLeast | buddy/buddy.c:136-156 | in a coalesced pool where every block is free, no block has an order below o, for every o up to N |
| Coalescing.AllFreeIsInitial | buddy/buddy.c:136-156 | a sound, coalesced pool in which every block is free is the initial pool, one free block of order N at 0, with the list heads and first header of `init_mem` |
| Handouts.InitOutstanding | buddy/buddy.c:22-32 | after `init_mem` no block is handed out |
| Handouts.MergeElsewhere | buddy/buddy.c:147-153 | a merge leaves every offset other than the freed block and its buddy as it was: whether it starts a block, the block's order, and whether it is listed |
| Handouts.MergeOutstanding | buddy/buddy.c:146-153 | one merge round changes the blocks handed out only by replacing the freed block with the merged one, and every other block handed out keeps its order |
| Handouts.ReleaseOutstanding | buddy/buddy.c:136-156 | `my_free` hands back exactly the freed block: the blocks handed out afterwards are those before less that block, each with the order it had |
| Handouts.SplitDownKeys | buddy/buddy.c:79-91 | every block after a split was a block before or is one of the upper halves h + 2^j |
| Handouts.SplitDownListed | buddy/buddy.c:85-87 | after a split an offset is listed exactly when it was listed before or is one of the upper halves |
| Handouts.SplitDownOutstanding | buddy/buddy.c:79-91 | splitting a block taken off its list hands nothing out: the blocks on no list are those before, and each of them other than the split block keeps its order |
| Handouts.AcquireOutstanding | buddy/buddy.c:96-109 | `get_free_block` hands out exactly the block it returns, which was not handed out before, and every block already handed out keeps its order |
| Handouts.AllocateOutstanding | buddy/buddy.c:114-131 | `my_alloc` adds exactly the block behind the returned address to the blocks handed out, a block not handed out before, and keeps the order of the others; on NULL the pool is unchanged |
| Handouts.NothingOutstanding | buddy/buddy.c:136-156 | a sound, coalesced pool with no block handed out is the initial pool, with the list heads and first header of `init_mem` |
| Allocator.BuddyAllocator.constructor | buddy/buddy.c:16-17 | the arena and the list heads start zero-filled, as static storage does |
| Allocator.BuddyAllocator.InitMem | buddy/buddy.c:22-32 | every list head is NULL except list N, the header at 0 says free, order N, no links, the pool is the initial one, and the rest of the arena is untouched |
| Allocator.InitMemTwice | buddy/buddy.c:22-32 | `init_mem` is idempotent: calling it twice leaves the same state as calling it once |
| Allocator.BuddyAllocator.AddFreeBlock | buddy/buddy.c:50-59 | the block becomes the free head of list `order`, linked before the old head, which gets the block as its `previous` |
| Allocator.BuddyAllocator.RemoveFreeBlock | buddy/buddy.c:65-74 | the neighbours of the block are linked to each other, and the list head moves to `next` when the block had no `previous` |
| Allocator.BuddyAllocator.Halve | buddy/buddy.c:85-88 | the upper half is pushed on the list of order c and the block's header gets order c |
| Allocator.BuddyAllocator.SplitFreeBlock | buddy/buddy.c:79-91 | the block leaves its list and ends with the wanted order, the pool equals SplitDown, and the other invariants hold with the block in hand |
| Allocator.BuddyAllocator.GetFreeBlock | buddy/buddy.c:96-109 | NULL exactly when Acquire fails, and then nothing changes; otherwise the block and the new pool are the ones Acquire gives |
| Allocator.BuddyAllocator.MarkUsed | buddy/buddy.c:126-127 | only the header of the block changes, and it records used and the order; when the block was the one in hand with that order, the arrays then implement the pool with nothing in hand |
| Allocator.BuddyAllocator.Alloc | buddy/buddy.c:114-131 | the result and the new pool are the ones Allocate gives; a served block is used, on no list, of order block_order(n + header), was not handed out before and is the only block added to those handed out; on NULL neither array changes; every block handed out before keeps its order; and the invariant, coalescing included, holds |
| Allocator.BuddyAllocator.Free | buddy/buddy.c:136-156 | freeing an allocated block keeps the invariant, coalescing included, and the new pool is the one Release gives, merging while the buddy is free and the order is below N; the blocks handed out lose exactly the freed one, and every other keeps its order |
| Allocator.AllFreed | buddy/buddy.c:136-156 | when every block the program was given has been freed, so that no block's header is marked used, the pool, the list heads and the first header are those `init_mem` leaves |
| Allocator.AllocHanded | buddy/buddy.c:114-131 | `my_alloc` adds to the blocks handed out the block behind the address it returns, and only it, a block not handed out before |
| Allocator.FreeHanded | buddy/buddy.c:136-156 | `my_free` of an address `my_alloc` returned, nothing for NULL, takes exactly that block away from the blocks handed out |
| Allocator.AllocFreeAfterInit | buddy/buddy.c:158-165 | `init_mem`, then allocating an `int` and freeing it, leaves the list heads, the first header and the pool as `init_mem` left them |
| Allocator.TwoAllocsFreed | buddy/buddy.c:114-156 | after `init_mem`, two allocations freed in either order leave the list heads, the first header and the pool as `init_mem` left them |

`Pools.Unlist`, `Pools.Insert`, `Pools.SplitStep`, `Pools.MergeStep`,
`Layout.Split` and `Layout.Merge` are the one-step definitions of the pool
and of its block map. They have no row of their own. The rows for
`Pools.UnlistSound`, `Pools.InsertSound`, `Pools.SplitSound`,
`Pools.MergeSound`, `Layout.SplitKeepsTiling`, `Layout.MergeKeepsTiling`,
`AllocatorSpec.SplitDown` and `AllocatorSpec.Release` state what they mean.

## Left out

- The `printf` and the store `*p = 10` of `main`: output and payload bytes are
  not modelled. `Allocator.AllocFreeAfterInit` keeps the calls to `init_mem`,
  `my_alloc` and `my_free`.
- Raw pointers: a block is named by its byte offset in the arena. `memory`
  has one `Header` slot per offset rather than raw bytes. As a result:
  - a header does not overlap the payload;
  - the alignment of the `char` array is not modelled;
  - only the slots at block starts are constrained.
- `sizeof(header_t)` is a parameter, `HeaderSize`, with
  1 <= HeaderSize < 2^N. N is a parameter of the constructor, not the
  constant 20.
- Integer widths: `size_t` arithmetic and the `int` shift `1 << order` are
  unbounded. The wrap-around of `n + sizeof(header_t)` is modelled only in
  `Orders.RequestOrderAsWritten` (see Findings). With N = 20 the `int` shift
  cannot overflow.
- `my_free` on a pointer that `my_alloc` did not return, or a second free of
  the same block, is undefined in C. `Allocator.BuddyAllocator.Free` requires
  p minus the header to start a block that is on no list, that is, a block
  handed out (`Handouts.Outstanding`).
- `Allocator.BuddyAllocator.Free` models the loop with the two corrections
  under Findings. The unguarded loop and the as-written unlink appear only in
  the finding members.
- `AllocatorSpec.Release`: its own contract states only that the number of
  lists is kept. `AllocatorSpec.ReleasePushes` states the block it pushes and
  the invariants it keeps for every input, and `AllocatorSpec.ReleaseToInit`
  states the full merge back to the initial pool. `Coalescing.ReleaseCoalesced`
  states that it leaves no free buddy pair, and `Handouts.ReleaseOutstanding`
  that it hands back exactly the freed block.
  `AllocatorSpec.ReleaseMerges` and `AllocatorSpec.ReleaseStops` are only
  the two equations of its definition.

## Findings

| source | as written | input that shows it | evidently intended | confidence | as-written member | corrected member |
|---|---|---|---|---|---|---|
| buddy/buddy.c:139-143 | the merge loop has no bound on `order`, so a block that has grown to order N computes `buddypos = 2^N` and reads a header past the end of `memory` | after `init_mem`, allocate one block and free it: the merges reach order N and the loop reads offset 2^N | stop merging at order N and push the block on list N | not executed | Layout.WholeArenaBuddyOutside | Allocator.BuddyAllocator.Free |
| buddy/buddy.c:147-152 | when the freed block is the upper half, the swap makes `buddy` name the freed block itself, so `remove_free_block(order, buddy)` unlinks a block that is on no list and leaves the real buddy linked | N = 4; blocks of order 2 at 0, 4, 8 and 12; list 2 is 0 then 12, and 4 and 8 are used; free the block at 4 | unlink the buddy found at `pos ^ (1 << order)`, whichever half it is | not executed | Pools.FreeAsWrittenLosesBlock | Pools.MergeSound |
| buddy/buddy.c:118 | `n + sizeof(header_t)` is a `size_t` sum that wraps, so a huge request is measured as a tiny one | n = SIZE_MAX with a 64-bit `size_t`: the sum is `sizeof(header_t) - 1`, and a block of at most twice the header size is returned | refuse any request whose size plus header does not fit in the arena | not executed | Orders.WrappedRequestUndersized | Orders.RequestOrder |
