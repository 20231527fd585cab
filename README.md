# randoutils core containers and character tables in Dafny

This project models the data structures of the `c-libs` collection and the
character-counting core of `mapprox`:

- the sorted linked-list priority queue (`RND_PriorityQueue.c` and its identical copy
  `RND_PriorityQueueLL.c`), module `PriorityQueue`;
- the linked-list FIFO queue (`RND_QueueLL.c` and `RND_Queue.c`), module `Queue`;
- the linked-list LIFO stack (`RND_StackLL.c` and `RND_Stack.c`), module `Stack`;
- the generic linked list (`RND_LinkedList.c` and the older `linkedlist.c`), module `LinkedList`;
- the chained hash map with its djb2 default hash (`RND_HashMap.c`), module `HashMap`;
- the packed bit array (`RND_BitArray.c` and its renamed copy `RND_BitMap.c`), module `BitArray`;
- the character classes `c2idx`/`idx2c` (module `CharIndex`) and the counting tables
  ("charms") with `count_chars` (module `Charm`) of `mapprox/src/class1.c`.

Shared vocabulary lives in `Callbacks`: `Option` for a pointer that may be NULL, a
destructor argument `Dtor<A>` (`None` is a NULL pointer; otherwise a function that
says whether the call returned 0) and a map argument `Mapper<A>`. `CTypes` holds
the C integer facts the model needs. These are the 64-bit `size_t` word, the
32-bit `unsigned` counter, the byte and the signed `char`. It also holds the
modular-arithmetic lemmas.

Every linked structure is a class whose field `elems` holds the node contents
from head to tail. Its methods reassign that field. Each pointer walk of the C
code (scan, predecessor walk, walk to the last node, count, map, free loop) is a
loop over an index standing for the node pointer. Return codes are the integers
the C returns. Where two files hold the same code, one model serves both, and the
table cites the first file. The bit array keeps its byte buffer as an
`array<bv8>`; Set and Toggle overwrite one byte in place. A charm's nested pointer
tables become one `array<Unsigned>` of 38^degree counters in row-major order.
`charm_get` and `charm_incr` keep their level-by-level recursion over that array.
`count_chars` reads its file as a sequence of bytes and keeps the `hist` and `idx`
buffers as arrays.

Where the documentation and the code disagree, the model follows the code:

- The priority queue keeps the lowest priority at the head. Equal priorities leave
  first-in, first-out, because the scan passes every node whose priority is `<=`
  the new one. The headers speak of higher priorities first and of an array ring
  buffer with a capacity; the code is a sorted linked list with no such buffer.
- `RND_bitArraySet`/`Toggle` answer 1, not the documented 2, for an index past the end.
- In the first loop of `count_chars` the value stored in the `char` history is what
  is compared with EOF. With a signed `char`, a 0xFF byte among the first
  degree - 1 bytes therefore ends the count (`Charm.PrefixEnds`). Later 0xFF bytes
  are counted like any other byte.

## Model

| member | source | states |
|---|---|---|
| PriorityQueue.PriorityQueue.Create | c-libs/priorityqueue/RND_PriorityQueue.c:6-9 | the empty queue (the NULL head), `elems == []`, which is ordered |
| PriorityQueue.PriorityQueue.Push | c-libs/priorityqueue/RND_PriorityQueue.c:11-46 | answers 0 and links the pair in where the scan stops: after every node of priority <= its own, before the first greater one; the queue stays ordered |
| PriorityQueue.PriorityQueue.Peek | c-libs/priorityqueue/RND_PriorityQueue.c:48-51 | NULL exactly for an empty queue, otherwise the head's data; in an ordered queue the head has the lowest priority |
| PriorityQueue.PriorityQueue.Pop | c-libs/priorityqueue/RND_PriorityQueue.c:53-69 | 1 when empty, 2 when the destructor fails on the head's user data, both leaving the queue as it was; otherwise 0 with only the head removed |
| PriorityQueue.PriorityQueue.Remove | c-libs/priorityqueue/RND_PriorityQueue.c:71-111 | 1 when empty, 3 when index >= size, 2 when the destructor fails on the pair record (unchanged in each case); otherwise 0 with exactly position index deleted |
| PriorityQueue.PriorityQueue.Clear | c-libs/priorityqueue/RND_PriorityQueue.c:113-129 | runs the destructor head to tail; stops with 1 at the first failure, having run it on exactly the nodes before; otherwise 0 and the queue is empty |
| PriorityQueue.PriorityQueue.Destroy | c-libs/priorityqueue/RND_PriorityQueue.c:131-134 | the same answers and state as Clear |
| PriorityQueue.PriorityQueue.Size | c-libs/priorityqueue/RND_PriorityQueue.c:136-141 | the number of nodes |
| PriorityQueue.PriorityQueue.Map | c-libs/priorityqueue/RND_PriorityQueue.c:150-165 | 1 exactly for an empty queue or NULL map with no call made; otherwise calls on indices 0, 1, ... in order, 2 at the first nonzero answer, 0 after calling every node |
| PriorityQueue.ScanStop | c-libs/priorityqueue/RND_PriorityQueue.c:13-20 | the scan stops after every node of priority <= p and at the first greater one or the end |
| PriorityQueue.ScanStopUnique | c-libs/priorityqueue/RND_PriorityQueue.c:15 | any stopping place with the scan's two properties is the one ScanStop names |
| PriorityQueue.PushedKeepsOrder | c-libs/priorityqueue/RND_PriorityQueue.c:13-31 | pushing into a queue whose priorities never decrease keeps them non-decreasing |
| PriorityQueue.WithoutKeepsOrder | c-libs/priorityqueue/RND_PriorityQueue.c:88-108 | unlinking one node keeps an ordered queue ordered |
| PriorityQueue.PushedPlacement | c-libs/priorityqueue/RND_PriorityQueue.c:15-31 | in an ordered queue, Push adds one node, the new pair, keeps the others in relative order; nodes before it have priority <= its own, nodes after it a greater one |
| PriorityQueue.PushedWithPriority | c-libs/priorityqueue/RND_PriorityQueue.c:15 | the new pair lands after every node of equal priority already queued |
| PriorityQueue.AfterStopGreater | c-libs/priorityqueue/RND_PriorityQueue.c:15-20 | in an ordered queue every node from where the scan stops on has a greater priority |
| PriorityQueue.AfterStopWithout | c-libs/priorityqueue/RND_PriorityQueue.c:15-20 | in an ordered queue no node from where the scan stops on has the pushed priority |
| PriorityQueue.BuildIsStableSort | c-libs/priorityqueue/RND_PriorityQueue.c:11-46 | pushing any sequence of pairs yields it sorted by priority with each priority's pairs in push order |
| PriorityQueue.TieOrder | c-libs/priorityqueue/RND_PriorityQueue.c:11-69 | pushing (A,5), (B,3), (C,5), (D,1) and popping all gives D, B, A, C |
| PriorityQueue.TiePushes | c-libs/priorityqueue/RND_PriorityQueue.c:11-46 | the four pushes of (A,5), (B,3), (C,5), (D,1) leave the nodes (D,1), (B,3), (A,5), (C,5) |
| PriorityQueue.Drain | c-libs/priorityqueue/RND_PriorityQueue.c:48-69 | peeking and popping until empty hands back the user data in queue order and leaves the queue empty |
| Queue.Queue.Create | c-libs/queueLL/RND_QueueLL.c:6-9 | the empty queue (the NULL head), `elems == []` |
| Queue.Queue.Push | c-libs/queueLL/RND_QueueLL.c:11-32 | answers 0 and the new contents are the old ones followed by data |
| Queue.Queue.Peek | c-libs/queueLL/RND_QueueLL.c:34-37 | NULL exactly when empty, otherwise the front element |
| Queue.Queue.Pop | c-libs/queueLL/RND_QueueLL.c:39-54 | 1 when empty, 2 when the destructor fails on the front (unchanged); otherwise 0 with the front removed |
| Queue.Queue.Remove | c-libs/queueLL/RND_QueueLL.c:56-96 | 1 when empty, 3 past the end, 2 when the destructor fails on that element (unchanged); otherwise 0 with exactly position index deleted |
| Queue.Queue.Clear | c-libs/queueLL/RND_QueueLL.c:98-113 | destructor front to back, 1 at the first failure after exactly the earlier nodes; otherwise 0 and empty |
| Queue.Queue.Destroy | c-libs/queueLL/RND_QueueLL.c:115-118 | the same answers and state as Clear |
| Queue.Queue.Size | c-libs/queueLL/RND_QueueLL.c:120-125 | the number of nodes |
| Queue.Queue.Map | c-libs/queueLL/RND_QueueLL.c:134-149 | 1 for empty or NULL map with no call; calls in front-to-back order, 2 at the first nonzero answer, 0 after all |
| Queue.PushAllThenPopAll | c-libs/queueLL/RND_QueueLL.c:11-54 | pushing xs and then peeking and popping until empty yields xs in push order |
| Stack.Stack.Create | c-libs/stackLL/RND_StackLL.c:6-9 | the empty stack (the NULL head), `elems == []` |
| Stack.Stack.Push | c-libs/stackLL/RND_StackLL.c:11-21 | answers 0 and data becomes the top with the old stack below it |
| Stack.Stack.Peek | c-libs/stackLL/RND_StackLL.c:23-26 | NULL exactly when empty, otherwise the top element |
| Stack.Stack.Pop | c-libs/stackLL/RND_StackLL.c:28-43 | 1 when empty, 2 when the destructor fails on the top (unchanged); otherwise 0 with only the top removed |
| Stack.Stack.Clear | c-libs/stackLL/RND_StackLL.c:45-60 | destructor top to bottom, 1 at the first failure after exactly the nodes above; otherwise 0 and empty |
| Stack.Stack.Destroy | c-libs/stackLL/RND_StackLL.c:62-65 | the same answers and state as Clear |
| Stack.Stack.Size | c-libs/stackLL/RND_StackLL.c:67-72 | the number of nodes |
| Stack.Stack.Map | c-libs/stackLL/RND_StackLL.c:81-96 | 1 for empty or NULL map with no call; calls top to bottom with indices 0, 1, ..., 2 at the first nonzero answer, 0 after all |
| Stack.PushAllThenPopAll | c-libs/stackLL/RND_StackLL.c:11-43 | pushing xs and then popping until empty yields xs reversed |
| LinkedList.LinkedList.Create | c-libs/linkedlist/RND_LinkedList.c:4-7 | the empty list (the NULL head), `elems == []` |
| LinkedList.LinkedList.Add | c-libs/linkedlist/RND_LinkedList.c:9-27 | answers 0 and the new contents are the old ones followed by data |
| LinkedList.LinkedList.Insert | c-libs/linkedlist/RND_LinkedList.c:29-54 | index <= size: 0 with data at position index and the rest shifted; larger index: 2 and unchanged |
| LinkedList.LinkedList.Get | c-libs/linkedlist/RND_LinkedList.c:56-70 | the element at index when index < size, NULL otherwise |
| LinkedList.RemoveOutcome | c-libs/linkedlist/RND_LinkedList.c:72-100 | 1 exactly for an index at or past the end; 2 exactly when 0 < index and the destructor fails; on 0 position index is deleted, otherwise nothing changes |
| LinkedList.LinkedList.Remove | c-libs/linkedlist/RND_LinkedList.c:72-100 | the answer and the new list are those RemoveOutcome gives |
| LinkedList.LinkedList.Destroy | c-libs/linkedlist/RND_LinkedList.c:102-115 | destructor front to back, 1 at the first failure after exactly the earlier nodes; otherwise 0 with the head reset to NULL |
| LinkedList.LinkedList.DestroyKeepingHead | c-libs/linkedlist/linkedlist.c:104-116 | the same walk and answers as Destroy, without resetting the head |
| LinkedList.LinkedList.Size | c-libs/linkedlist/RND_LinkedList.c:117-122 | the number of nodes |
| LinkedList.InsertRemoveExample | c-libs/linkedlist/example.c:13-20 | inserting 2, 3, 4 at 0, 1, 2 and removing index 1 leaves [2, 4] of size 2 |
| LinkedList.InsertExample | c-libs/linkedlist/linkedlist.c:139-147 | inserting 2, 3, 4 at 0, 1, 2 leaves [2, 3, 4] of size 3 |
| HashMap.Widen | c-libs/hashmap/RND_HashMap.c:30-33 | a key char as size_t: same low byte, below 2^64, small exactly for ASCII bytes |
| HashMap.Djb2 | c-libs/hashmap/RND_HashMap.c:31-34 | the djb2 state is always a 64-bit word |
| HashMap.DefaultHash | c-libs/hashmap/RND_HashMap.c:24-36 | the default hash always names a bucket (below size) |
| HashMap.DefaultHashFunction | c-libs/hashmap/RND_HashMap.c:24-36 | the loop computes DefaultHash, wrapping at 2^64, and its answer is below size |
| HashMap.HashMap.Create | c-libs/hashmap/RND_HashMap.c:5-22 | size empty buckets, hashed with the given function or the default one when NULL |
| HashMap.Add | c-libs/hashmap/RND_HashMap.c:38-58 | 1 for a NULL map; otherwise 0 with the pair appended to bucket hash(key) and every other bucket unchanged |
| HashMap.Get | c-libs/hashmap/RND_HashMap.c:60-76 | NULL for a NULL map; otherwise the value of the first pair in bucket hash(key) with that key, NULL if none |
| HashMap.Remove | c-libs/hashmap/RND_HashMap.c:78-91 | 1 for a NULL map, 3 with nothing changed when the key is absent; otherwise the list removal of its first pair, 2 if that fails, else 0 |
| HashMap.Size | c-libs/hashmap/RND_HashMap.c:93-103 | 0 for a NULL map, otherwise the number of pairs in all buckets |
| HashMap.Index | c-libs/hashmap/RND_HashMap.c:105-117 | NULL for a NULL map; otherwise pair number index of the buckets read in order, NULL past the end |
| HashMap.FirstKey | c-libs/hashmap/RND_HashMap.c:69-74 | the first position holding the key, or the bucket length when none does |
| HashMap.FirstKeyUnique | c-libs/hashmap/RND_HashMap.c:69-74 | any position with FirstKey's properties is FirstKey |
| HashMap.AddGrowsSize | c-libs/hashmap/RND_HashMap.c:38-103 | after Add the number of stored pairs is one more |
| HashMap.AddThenFind | c-libs/hashmap/RND_HashMap.c:38-76 | after Add, Get finds the new value unless the key was already present, whose first value wins; other keys unaffected |
| HashMap.RemoveThenFind | c-libs/hashmap/RND_HashMap.c:60-91 | after removing the first pair with a key, Get finds the next pair with that key, if any |
| HashMap.FindSkip | c-libs/hashmap/RND_HashMap.c:69-74 | pairs with other keys ahead in a bucket do not change the value Get finds for a key |
| HashMap.FirstKeySkip | c-libs/hashmap/RND_HashMap.c:69-74 | pairs with other keys ahead in a bucket shift the first matching position by their number |
| HashMap.FlattenPrefix | c-libs/hashmap/RND_HashMap.c:105-117 | the pairs of the first q buckets come first in the whole enumeration |
| HashMap.FlattenAt | c-libs/hashmap/RND_HashMap.c:105-117 | a position inside bucket q's run of the enumeration is that bucket's pair at the offset Index computes |
| BitArray.ByteCount | c-libs/bitarray/RND_BitArray.c:13-14 | the fewest bytes holding size bits |
| BitArray.IndexInBytes | c-libs/bitarray/RND_BitArray.c:29-33 | every index below size falls in an allocated byte |
| BitArray.Mask | c-libs/bitarray/RND_BitArray.c:33 | the mask 0x80 >> (i % 8) has exactly one bit set |
| BitArray.MaskIsShift | c-libs/bitarray/RND_BitArray.c:33 | the mask is 0x80 shifted right by index % 8 |
| BitArray.MaskDistinct | c-libs/bitarray/RND_BitArray.c:33 | masks of different positions within a byte do not overlap |
| BitArray.SetBit | c-libs/bitarray/RND_BitArray.c:46-47 | writing one bit changes only byte index / 8 |
| BitArray.SetThenGet | c-libs/bitarray/RND_BitArray.c:36-49 | after Set(i, v) bit i reads v and every other bit reads as before |
| BitArray.SetSameValue | c-libs/bitarray/RND_BitArray.c:46-47 | writing a bit's own value changes nothing |
| BitArray.WriteOwnBit | c-libs/bitarray/RND_BitArray.c:46-47 | writing a byte's own bit value under a single-bit mask gives the byte back |
| BitArray.ToggledIsFlip | c-libs/bitarray/RND_BitArray.c:61-63 | toggling writes the negation of the bit read, which flips that one bit of its byte |
| BitArray.FlipByteTwice | c-libs/bitarray/RND_BitArray.c:61-63 | flipping one masked bit of a byte twice gives the byte back |
| BitArray.ToggleTwice | c-libs/bitarray/RND_BitArray.c:51-65 | toggling a bit twice restores all bytes |
| BitArray.BitArray.Create | c-libs/bitarray/RND_BitArray.c:6-21 | remembers size and allocates ceil(size / 8) zero bytes |
| BitArray.Get | c-libs/bitarray/RND_BitArray.c:23-34 | false for NULL or index >= size; otherwise bit index read MSB-first |
| BitArray.Set | c-libs/bitarray/RND_BitArray.c:36-49 | 1 and unchanged for NULL or index >= size; otherwise 0 with bit index written |
| BitArray.Toggle | c-libs/bitarray/RND_BitArray.c:51-65 | 1 and unchanged for NULL or index >= size; otherwise 0 with bit index flipped |
| BitArray.Size | c-libs/bitarray/RND_BitArray.c:78-85 | 0 for NULL, otherwise the stored bit count |
| BitArray.CreateSetGet | c-libs/bitarray/RND_BitArray.c:6-49 | a new array reads false; after setting bit i it reads true at i and still false at i + 1 |
| CharIndex.C2Idx | mapprox/src/class1.c:36-48 | letters of either case to 0..25, digits to 26..35, whitespace to 36, anything else to SIZE_MAX |
| CharIndex.Idx2C | mapprox/src/class1.c:50-61 | no character exactly for rows past 36; otherwise a legal character that is not upper case |
| CharIndex.IdxRoundTrip | mapprox/src/class1.c:36-61 | c2idx(idx2c(i)) == i for every i <= 36 |
| CharIndex.CharRoundTrip | mapprox/src/class1.c:36-61 | idx2c(c2idx(c)) is c lower-cased, the digit itself, or ' ' for whitespace |
| CharIndex.SameRow | mapprox/src/class1.c:36-48 | two legal characters share a row exactly when they have the same lower-cased or space form |
| Charm.Offset | mapprox/src/class1.c:76-92 | the position of the counter at a path lies inside the table |
| Charm.OffsetInjective | mapprox/src/class1.c:76-92 | two paths of one length reach the same counter only if they are equal |
| Charm.Lookup | mapprox/src/class1.c:86-92 | the recursive descent reaches the counter at the path's position |
| Charm.BumpOnly | mapprox/src/class1.c:76-84 | charm_incr raises the counter at its path by one modulo 2^32 and no other |
| Charm.ApplyAll | mapprox/src/class1.c:76-84 | a run of increments never changes the number of counters |
| Charm.ApplyAllAppend | mapprox/src/class1.c:76-84 | running two batches of increments one after the other is running their concatenation |
| Charm.ApplyAllCounts | mapprox/src/class1.c:76-84 | after a run of increments each counter has gone up by the number of increments at its path, modulo 2^32 |
| Charm.ApplyAllStep | mapprox/src/class1.c:76-84 | one more increment raises the counter at the path by one modulo 2^32 exactly when it is at that path |
| Charm.Charm.Create | mapprox/src/class1.c:63-74 | a table of degree levels, 38 rows per level, every counter 0 |
| Charm.Charm.Get | mapprox/src/class1.c:86-92 | the counter at the path, reading nothing else |
| Charm.Charm.Incr | mapprox/src/class1.c:76-84 | the counters become Bump of the old ones at the path |
| Charm.Charm.IncrWithin | mapprox/src/class1.c:76-84 | one recursion level: only the counter at base plus the path's position goes up by one |
| Charm.Rows | mapprox/src/class1.c:133-137 | a legal window's rows, each at most 36 and each c2idx of its character |
| Charm.Window | mapprox/src/class1.c:120-127 | the `char` values stored for bytes lo..hi, each byte read as a signed char |
| Charm.TotalPath | mapprox/src/class1.c:148-150 | the total counter's path [37, 0, ..., 0] |
| Charm.WindowPathsAllPaths | mapprox/src/class1.c:137-149 | every increment of one window addresses a counter of the table |
| Charm.PathsUpToAllPaths | mapprox/src/class1.c:123-152 | every increment made for the windows through position n addresses a counter of the table |
| Charm.WindowOccurrences | mapprox/src/class1.c:133-152 | one window adds at most one to any counter, and one exactly to its exact, any-ending and total counters when all its characters are legal |
| Charm.PathsUpToOccurrences | mapprox/src/class1.c:123-153 | the increments through position n reach a counter once per window that feeds it |
| Charm.PathsUpToStep | mapprox/src/class1.c:123-152 | the window ending at position n adds one to a counter exactly when it feeds it |
| Charm.CountedPathsOccurrences | mapprox/src/class1.c:102-157 | everything count_chars increments addresses the table and reaches a counter once per counted window feeding it |
| Charm.CountedPathsCounter | mapprox/src/class1.c:102-157 | after count_chars a counter holds its old value plus the number of windows feeding it, modulo 2^32; nothing is added when the input ends before the first window |
| Charm.ShiftIn | mapprox/src/class1.c:125-128 | the history loses its oldest character and gains the new one |
| Charm.ToRows | mapprox/src/class1.c:130-137 | answers whether every history character is legal, and then idx holds their rows |
| Charm.SetTotalPath | mapprox/src/class1.c:148-150 | idx becomes [37, 0, ..., 0] |
| Charm.CountWindow | mapprox/src/class1.c:139-150 | the counters take the exact, any-ending (degree > 1) and total increments of the window |
| Charm.FillPrefix | mapprox/src/class1.c:119-121 | true exactly when degree - 1 characters were read with none equal to EOF, and then they fill hist[1..] |
| Charm.CountNext | mapprox/src/class1.c:123-152 | one turn: the new character is shifted in and the window's increments applied |
| Charm.SlideWindow | mapprox/src/class1.c:125-127 | shifting the next byte into the last degree - 1 characters gives the window ending at it, whose tail is the next history |
| Charm.PathsUpToNext | mapprox/src/class1.c:123-152 | reading one more byte appends exactly that window's increments |
| Charm.CountAt | mapprox/src/class1.c:123-152 | one turn of the main loop keeps the history equal to the last degree - 1 characters and the counters equal to the increments so far |
| Charm.ProgressStarts | mapprox/src/class1.c:119-123 | after the prefix is read nothing has been counted and the history holds it |
| Charm.CountWindows | mapprox/src/class1.c:123-152 | the main loop applies every window's increments through the end of the input, in reading order |
| Charm.CountChars | mapprox/src/class1.c:102-157 | the counters become the old ones with every counted window's increments applied, in reading order |

## Left out

- Allocation failures (`malloc`/`calloc` returning NULL) are not modelled; allocation always succeeds.
- The list left after a failed Clear or Destroy is not modelled. The C has already freed the nodes before the failing one but leaves the head pointing at them. The model reports the answer and how many nodes the destructor accepted, and keeps `elems` as the head pointer left it.
- Uninitialised `next` pointers (`RND_LinkedList.c:17-18`, `RND_Queue.c:18-19`) and leaks (Remove at index 0 neither runs the destructor nor frees) are noted in comments and not modelled as behaviour.
- Side effects of destructor and map callbacks are not modelled; a callback is a pure function of its arguments.
- Printing functions (`*Print`, `*PrintMap`) and the error-message helpers are output only.
- `RND_priorityQueueDtorFree`, `RND_priorityQueueLLDtorFree`, `RND_queueDtorFree`, `RND_queueLLDtorFree`, `RND_stackDtorFree`, `RND_stackLLDtorFree`, `RND_linkedListDtorFree` and `linkedListDtorFree` are each `free` plus `return 0`, which is a destructor that always accepts.
- `RND_hashMapDtorFree` (`c-libs/hashmap/RND_HashMap.c:142-151`) answers 1 for NULL and otherwise frees the key, the value and the pair record and answers 0. A pair record a map holds is never NULL, so for the model it is the destructor that always accepts.
- Declared but not defined in the source: `RND_bitArraySetf`, `RND_stackLLRemove`, `RND_linkedListClear`, `RND_linkedListMap`, `RND_linkedListFilter` and `RND_hashMapPrint`. `RND_hashMapClear` and `RND_hashMapDestroy` call the missing `RND_linkedListClear`, so they are left out as well.
- The array ring buffer with a capacity that the queue header describes has no implementation in the source and is not modelled.
- `RND_bitArrayDestroy` and `charm_destroy` only release memory.
- LinkedList.LinkedList.Insert: requires index 0 on an empty list, because the C dereferences the NULL head for any other index.
- HashMap.HashMap.Create: requires at least one bucket, because every later operation reduces the hash modulo the bucket count. It also requires a user hash function to answer a bucket number below `size` for every key (kept by `Valid`). The C never checks this: Add, Get and Remove (`RND_HashMap.c:83-84`) index `data[]` with the raw result, so an out-of-range answer is an out-of-bounds access, which the model does not describe.
- HashMap.Remove: the list's own Remove at index 0 unlinks without running the destructor, so a first-position match always answers 0.
- Charm.Charm.Create: requires degree >= 1; with degree 0 the C recursion does not end.
- `count_chars` reads from a `FILE *`; the model takes the bytes of the file. The `fseek` to the start is left out, as is its error exit.
- `isspace` is taken in the C locale; `char` is taken to be signed, as on x86.
- The predecessor and lookup walks of `RND_linkedListInsert`, `RND_linkedListGet` and `RND_linkedListRemove` (`RND_LinkedList.c:42`, `:62`, `:81`), of their copies in `linkedlist.c` (`:44`, `:64`, `:83`), of `RND_queueLLRemove` (`RND_QueueLL.c:73`) and of `RND_priorityQueueRemove` (`RND_PriorityQueue.c:88`, and its copy at `RND_PriorityQueueLL.c:88`) count with an `int` compared against a `size_t` index. So do the read-back loops of the two linked-list examples (`linkedlist/example.c:19`, `linkedlist.c:145`), compared against the list size. The model's counters are `nat`, so it does not capture what happens when that `int` would overflow (indices beyond 2^31 - 1).
- The game library, the text generators of `mapprox` (`generate*`, `gen0`, `gen_init_str`) with their random choices and floating point, `lsystem`, and the status-bar programs are not part of this model.
