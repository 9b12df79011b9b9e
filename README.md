# A verified model of a boundary-tag malloc

This project models a small C allocator (`alloc.c`) that replaces `malloc`,
`calloc`, `free` and `realloc` on top of `sbrk`. Every block in the heap has:

- a 16-byte header: an `int` size, an `int` free flag and `next`/`prev` links;
- a payload of `size` bytes;
- a 4-byte footer that repeats the size.

The blocks tile the heap from `heap_start` to the program break. Free
blocks sit on a doubly linked LIFO list rooted at `metadata_head`.

- **malloc** rounds the request up to a multiple of the header width and takes
  the first free block that fits. It splits that block when it is at least
  `SPLIT_FACTOR` (40) times the request. When no free block fits, it grows
  the heap with `sbrk`.
- **free** hands the block to `merge_block`, which does one of three things:
  - folds the block into a free left neighbour that is at least as large;
  - absorbs a free right neighbour that is at least as large, then pushes the
    block on the list;
  - otherwise pushes the block on the list unchanged.
- **calloc** zeroes the `num * size` bytes (the product wraps around as a
  `size_t`).
- **realloc** behaves as malloc for NULL and as free for size 0. It keeps a
  block that is already large enough. Otherwise it moves the bytes into a
  new block and frees the old one.

The model has two layers.

- `Engine` (over `Layout`, `FreeList` and `Codec`) describes the heap as
  values:
  - blocks in address order, each with an address, a size and a flag;
  - the free list as a sequence of header addresses.

  Each C routine has an outcome function: `MergeOutcome`, `SplitOutcome`,
  `MallocOutcome`, `FreeOutcome` and `ReallocOutcome`. The lemmas prove that
  these keep the allocator's invariant `WellFormed`, which says:
  - the blocks tile the heap;
  - the free list has no duplicates;
  - a block is flagged free exactly when it is on the list.

  They also prove what each routine promises its caller.
- `Alloc.Allocator` is the running allocator: a class whose fields are
  - the memory up to the break (`mem`, one cell per byte address);
  - the break, `heap_start` and `metadata_head`.

  Its methods make the same stores in the same order as the C functions. Each
  one is proved to leave the memory describing the state that the outcome
  function gives. It is also proved to keep the payload of every other block
  in use byte for byte.

  `Heap`, `Frames` and `Steps` hold the lemmas about the memory that connect
  the two layers. `Bulk` holds `memset`/`memcpy` and the payload facts of
  calloc and realloc.

## Model

| member | source | states |
|---|---|---|
| Codec.BlockAddress | alloc.c:243-248 | a NULL header gives a NULL payload address; any other header gives an address past the 16-byte header |
| Codec.BlockMetadata | alloc.c:250-255 | a NULL payload gives a NULL header; a payload above the header width gives a non-NULL header |
| Codec.AddressRoundTrip | alloc.c:243-255 | get_block_metadata undoes get_block_address, and the reverse also holds for every address that is NULL or above the header width |
| Codec.RoundUpTo | alloc.c:97 | the intended rounding: a multiple of the unit, at least the request and less than one unit above it |
| Codec.RoundUpToUnique | alloc.c:97 | it is the only multiple of the unit in that range, so it is the least one |
| Codec.RoundsUp | alloc.c:97 | with a 16-byte header and a 32-bit size_t, request + ((16 - request) & 15) with wrapping subtraction is exactly the least multiple of 16 not below the request |
| Codec.RoundRequest | alloc.c:97 | malloc's rounding expression equals RoundUpTo(request, 16) for every request that does not wrap around |
| Codec.RoundBitsMissesFor24 | alloc.c:97 | with a 24-byte header (64-bit target) the same expression turns 33 into 56, which is not a multiple of 24; the least multiple is 48 |
| FreeList.Unlink | alloc.c:316-333 | removing a node that is on the list shortens it by one; removing one that is absent leaves it unchanged; no entry is added; on a duplicate-free list exactly that node is gone and every other node stays |
| FreeList.UnlinkAt | alloc.c:316-333 | unlinking the k-th node keeps the other nodes in their order |
| FreeList.FirstFit | alloc.c:98-107 | the index of the first block at least as large as the request: every earlier block is smaller, and the index is the list length when none fits |
| Steps.ListNode | alloc.c:100-106 | at position k of the free list, the header's size cell is the size of that list node's block (what get_block_size reads), and the next field leads to position k + 1 or NULL at the end |
| Steps.SearchStep | alloc.c:100-106 | one step of the search loop: the node fits exactly when it is the first fit, otherwise the first fit lies further on |
| Engine.MergeSpec | alloc.c:335-358 | merge_block of a block that is not on the list restores the invariant, keeps the heap's extent, keeps every other block in use, and leaves the block's bytes inside one free block |
| Engine.MergeCases | alloc.c:338-357 | left absorption drops a block and leaves the list alone; right absorption drops a block, puts the block at the head and removes the neighbour from the list; otherwise the block is pushed at the head |
| Engine.MergeReleases | alloc.c:335-358 | in all three branches the released block's bytes end up inside one free block |
| Engine.MergeKeeps | alloc.c:335-358 | every other block in use is still a block of the new state, unchanged |
| Engine.MergeIgnoresFlag | alloc.c:335-358 | the outcome does not depend on the released block's own free flag, so split_block may release a remainder whose flag was never written (alloc.c:283) |
| Engine.CarveSpec | alloc.c:279-282 | the size stores of split_block keep the invariant, with only the new remainder exempt, and keep every other block in use |
| Engine.SplitSpec | alloc.c:275-284 | split_block keeps the invariant and the heap's extent; the block stays in use with exactly `trim` bytes; the rest lies inside a free block; every other block in use is kept; the footprints still add up to the heap |
| Engine.SplitShape | alloc.c:275-284 | the invariant holds and the block is in use with exactly `trim` bytes |
| Engine.SplitKeeps | alloc.c:275-284 | split_block keeps every other block in use |
| Engine.CaptureSpec | alloc.c:94-96 | malloc records a non-NULL heap start on its first call and keeps the invariant |
| Engine.TakeSpec | alloc.c:103-109 | taking a free block off the list and marking it used keeps the invariant and every block in use, and the block is no longer on the list |
| Engine.ReuseSpec | alloc.c:108-113 | reusing a free block keeps the invariant, the extent and every block in use; the block is in use with its old size, or with exactly the request when it was at least SPLIT_FACTOR times the request, and then the rest is free |
| Engine.RoundedPositive | alloc.c:97-110 | a positive request rounds to at least 16, and the product in the split test does not wrap around |
| Engine.GrownSpec | alloc.c:115-121 | appending a block at the break keeps the invariant and every block; the new payload is allocated with the rounded size and was not in use before |
| Engine.MallocHit | alloc.c:98-113 | when a free block fits, malloc returns the payload of the first fitting block on the list; the extent is unchanged and the block holds at least the rounded request |
| Engine.MallocMiss | alloc.c:115-121 | when none fits, malloc appends a block of the rounded size at the old break, or returns NULL with the state unchanged apart from the recorded start when sbrk refuses |
| Engine.MallocSpec | alloc.c:89-122 | malloc(0) returns NULL and changes nothing; otherwise the invariant holds and every block in use is kept; a NULL result changes only the recorded start; a non-NULL result is the payload of a block in use, of at least the requested size, that was not in use before |
| Engine.MallocKeepsAllocated | alloc.c:89-122 | an allocated pointer stays allocated across malloc, with the same size |
| Engine.FreeSpec | alloc.c:140-147 | free(NULL) changes nothing; otherwise the invariant and the extent are kept, every other block in use is kept, the pointer is no longer allocated and its bytes are free |
| Engine.FreeKeepsOther | alloc.c:140-147 | free keeps every other allocated pointer allocated, with its size |
| Engine.ReallocSpec | alloc.c:194-211 | a NULL pointer behaves as malloc; size 0 frees and returns NULL; a block already large enough is returned unchanged; a NULL result otherwise leaves the state unchanged; the invariant always holds; a non-NULL result holds at least `size` bytes; a moved block's old pointer is no longer allocated |
| Engine.ReallocMoves | alloc.c:204-209 | when the block is too small and malloc succeeds, the result is malloc's pointer, it differs from the old one, it is allocated with at least `size` bytes, and the old pointer is freed |
| Engine.ReallocMovesTo | alloc.c:205-208 | that outcome is free of the old pointer in the state malloc left, and the old pointer is still allocated there |
| Engine.GrowTwice | alloc.c:89-122 | from a fresh heap, two 10-byte requests each append a 16-byte block (20 bytes of header and footer), at the break and 36 bytes later |
| Engine.FreeFirst | alloc.c:140-147 | freeing the first of those blocks makes it the only entry of the free list |
| Engine.ReuseFirst | alloc.c:98-113 | a third 10-byte request then reuses that block without growing the heap, even when sbrk would refuse |
| Engine.ReuseAfterFree | alloc.c:89-147 | the three steps above in one scenario |
| Engine.CoalesceThenReuse | alloc.c:335-358 | freeing the second and then the first of two adjacent 16-byte blocks merges them into one free block of 52 bytes, which a 40-byte request reuses whole |
| Heap.DetachSpec | alloc.c:316-333 | remove_block_node's stores leave the rest of the free list linked in order, and no size, flag, footer or payload changes |
| Heap.Unthread | alloc.c:316-333 | the stores of remove_block_node, one at a time, give the memory and head that Detach describes |
| Bulk.Fill | alloc.c:64 | memset: the n cells from dst read the value, and every other cell is unchanged |
| Bulk.Copy | alloc.c:206 | memcpy: the n cells from dst read what the n cells from src held, and every other cell is unchanged |
| Bulk.Moved | alloc.c:205-207 | a block kept across malloc, copied and then kept across free leaves its bytes at the front of the new block |
| Bulk.MoveDone | alloc.c:205-208 | after malloc, memcpy and free, every block that was in use (the old one aside) keeps its bytes, and the new block begins with the old block's bytes |
| Alloc.Allocator.constructor | alloc.c:17-18 | the allocator starts with no heap start, an empty free list and no blocks, and the invariant holds |
| Alloc.Allocator.IsBlockFree | alloc.c:215-220 | NULL reads 0; for a header in place, the result is non-zero exactly when the block is free |
| Alloc.Allocator.GetBlockSize | alloc.c:236-241 | NULL reads 0; for a header in place, the result is the block's size |
| Alloc.Allocator.MarkBlockFree | alloc.c:222-227 | writes 1 to the flag field, and does nothing for NULL |
| Alloc.Allocator.MarkBlockUsed | alloc.c:229-234 | writes 0 to the flag field, and does nothing for NULL |
| Alloc.Allocator.SetBlockFooter | alloc.c:265-273 | copies the size to the footer cell when that cell lies below the break; otherwise nothing changes |
| Alloc.Allocator.SetBlockSize | alloc.c:257-263 | writes the size to the header and, when it lies below the break, to the footer |
| Alloc.Allocator.Sbrk | alloc.c:115-118 | returns the old break and extends the memory by the increment, or returns -1 and changes nothing when the system refuses |
| Alloc.Allocator.GetLeftBlock | alloc.c:286-299 | the left neighbour, found through its footer, when it exists and is free; NULL otherwise |
| Alloc.Allocator.GetRightBlock | alloc.c:301-314 | the right neighbour when its header lies below the break and it is free; NULL otherwise |
| Alloc.Allocator.RemoveBlockNode | alloc.c:316-333 | the node leaves the free list (Unlink), the list stays linked, the removed node's next and prev fields read NULL, and every block keeps its metadata and payload |
| Alloc.Allocator.PushBlock | alloc.c:352-357 | the block is marked free and becomes the list head, and no payload changes |
| Alloc.Allocator.JoinLeft | alloc.c:338-343 | the left neighbour grows over the block; the state is merge_block's outcome and every other payload is kept |
| Alloc.Allocator.AbsorbRight | alloc.c:345-351 | the right neighbour leaves the list and the block grows over it; every other payload is kept |
| Alloc.Allocator.MergeBlock | alloc.c:335-358 | the new state is MergeOutcome, the invariant holds again, and every other block in use keeps its bytes |
| Alloc.Allocator.Free | alloc.c:140-147 | the new state is FreeOutcome; free(NULL) changes no memory; otherwise every other block in use keeps its bytes |
| Alloc.Allocator.SplitBlock | alloc.c:275-284 | a NULL block or a zero trim changes nothing; otherwise the state is SplitOutcome, every other block in use keeps its bytes, and the block keeps its first `trim` bytes |
| Alloc.Allocator.CarveSizes | alloc.c:279-282 | the two set_block_size calls give the block `trim` bytes and the new block the rest, headers and footers included |
| Alloc.Allocator.FirstFitNode | alloc.c:98-107 | the loop finds the first list node of at least `r` bytes, or NULL, and takes that node off the list |
| Alloc.Allocator.TakeBlock | alloc.c:108-113 | the chosen block is marked used and split when large enough; the state is Reuse and every block in use keeps its bytes |
| Alloc.Allocator.GrowHeap | alloc.c:115-121 | a block of the rounded size is appended at the old break and its payload address is returned; NULL with nothing changed when sbrk refuses |
| Alloc.Allocator.Malloc | alloc.c:89-122 | the returned pointer and the new state are MallocOutcome, the invariant holds, and every block in use keeps its bytes |
| Alloc.Allocator.Calloc | alloc.c:57-66 | malloc of the product modulo 2^32; on success the whole requested range lies in memory and reads zero, and every other block in use keeps its bytes |
| Alloc.Allocator.Realloc | alloc.c:194-211 | the result and the new state are ReallocOutcome; in-place success changes no memory; failure keeps every block; a moved block's bytes are at the front of the new block, and every other block in use keeps its bytes |
| Alloc.Allocator.MoveBlock | alloc.c:204-209 | the moving branch: either NULL with every block kept, or a different pointer whose block begins with the old bytes |
| Alloc.Allocator.CopyAndFree | alloc.c:205-208 | memcpy into the new block, then free of the old one, reaches ReallocOutcome with the old bytes at the front of the new block |

## Left out

- sbrk and the system break: the break is the field `brk`, and whether the system grants more memory is the parameter `grows`. Memory that sbrk hands out reads as zero.
- The byte layout of `int` and pointer fields: a 4-byte header field or footer lives in the one cell at its first address. Reading part of a field as payload bytes is not modelled.
- Only the 32-bit layout (16-byte header, 4-byte `int` and footer) is modelled as the running allocator. The 64-bit header appears only in the finding below.
- Alloc.Allocator.Malloc: requires `request <= MAX_MALLOC` (2^32 / 40 - 16). Beyond that bound the `size_t` product `request * SPLIT_FACTOR` and the `sbrk` increment wrap around, and the model does not cover those requests.
- Alloc.Allocator.Calloc: the wrapped product `num * size` must also be at most `MAX_MALLOC`, for the same reason.
- Alloc.Allocator.Realloc: requires `size <= MAX_MALLOC`. The pointer must be NULL or allocated; any other pointer is undefined behaviour in C.
- Alloc.Allocator.Free: the pointer must be NULL or the payload of a block in use. A double free or a foreign pointer is undefined behaviour and is not modelled.
- Alloc.Allocator.SplitBlock: for a non-NULL block and a non-zero trim, it requires that the block can be split. Its only caller, malloc, guarantees this.
- The `int` size field: sizes are unbounded integers. The C field would turn negative past 2^31 bytes in one block, which needs a heap of more than 2 GiB.
- memset and memcpy: they are the functions `Bulk.Fill` and `Bulk.Copy`, which give the memory after the call, not byte-by-byte loops.
- Alloc.Allocator.IsBlockFree and Alloc.Allocator.GetBlockSize: their ensures relate the value read to the block's state only for a header whose size, flag and footer are in place.
- The `prev` field of the list head: merge_block never clears it, and the invariant says nothing about it, because remove_block_node never reads it for the head.
- Thread safety: the C code takes no lock, and the model is sequential.
- Helper methods: several C functions are one method each but lean on small helpers (one branch or one group of stores per helper), with the stores in the C order.

## Findings

| source | as written | input that shows it | evidently intended | confidence | as-written member | corrected member |
|---|---|---|---|---|---|---|
| alloc.c:97 | `request += (METADATA_SIZE - request) & (METADATA_SIZE - 1)` rounds up only when METADATA_SIZE is a power of two. On a 64-bit target `sizeof(metadata_entry_t)` is 24. | request 33 with a 24-byte header gives 56, which is not a multiple of 24 | the least multiple of the header width not below the request (48 here) | not executed | Codec.RoundBitsMissesFor24 | Codec.RoundUpTo |
