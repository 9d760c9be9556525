# Directory-based cache coherence: trace generators, caches and directories

This project models the sequential core of a trace-driven cache-coherence simulator, in Dafny. It proves properties of that model.

The model covers four components:

- **The trace generators** (`traces/generate_traces_64.py`, `traces/generate_traces.py`). Eight access patterns are written as `(processor, R|W, address)` records: random, matrix multiplication, sequential, stride, shared data, producer-consumer, false sharing and matrix transpose.
  - The 64-byte variant writes element indices separated by one space.
  - The 8-byte variant multiplies each index by 8 and separates the fields with `", "`.
- **The set-associative LRU cache simulator** (`src/single_cache.c`). Each set is a list in least-recently-used order. Loads and stores are classified as a hit, a cold miss or an eviction, and the counters are kept up to date.
- **Three directory protocols.** Each holds per-line entries with a state (`UNCACHED`, `SHARED` or `EXCLUSIVE_MODIFIED`) and an owner:
  - the central directory (`src/central_directory.c`) and the distributed directory (`src/distributed_directory.c`) track sharers with presence bits;
  - the limited-pointer directory (`src/limited_pointer_dir.c`) records up to ten sharer ids in slots;
  - the request handlers change entries in place and put messages on the interconnect's queues.

  Shared helpers come from `src/utils.c`.
- **The linked FIFO queue** (`src/queue.c`).

There is one module per source file, plus a few supporting modules:

| module | contents |
|---|---|
| `TraceRecord` | records and their text form |
| `TraceSpec` | what each generator writes, as functions of its parameters and of the random draws |
| `TraceGen` | the generator loops |
| `TraceScan` | the `sscanf` conversions the simulators use to read a trace line |
| `CInt` | C integer semantics |
| `Wrappers` | `Option` and `Result` |

Code that updates state in place is modelled by classes over arrays, or over a linked list for the queue. Each method is proved against a function that describes its result.

Python's `random` is modelled as explicit draws. `RandInt` and `Choice` reduce an arbitrary integer into the range Python would return, and `RandIntReaches` and `ChoiceReaches` show that every value Python could return is reachable.

`TraceSpec.TransposeTwoByTwo` spells out the eight records of the 2×2 transpose trace on two processors. Each generator method stops with the exception Python raises, at the point where Python raises it.

The central and utils copies of `directoryIndex` are identical. The two copies of `initializeDirectory` (`src/central_directory.c:27-42` and `src/utils.c:78-99`) differ in allocation and locking: `malloc` with mutexes against `calloc` with NULL checks and no locks. Once locks and allocation failure are left out, as below, they produce the same entries. Both functions are modelled once, as `Utils.DirectoryIndex` and `Utils.Directory.constructor`. The limited-pointer `directoryIndex` (`src/limited_pointer_dir.c:39-41`) is the same function as well.

`src/limited_pointer_dir.c` does not compile as written. It uses a bare, undeclared `numSharedBy` (lines 57, 94 and 131), and it assigns the entry `directory->lines[index]` to a pointer. The model reads each such use as the entry's own `numSharedBy` field, and updates the entry in the directory's array.

## Model

| member | source | states |
|---|---|---|
| TraceRecord.Hex016Shape | traces/generate_traces_64.py:41 | an address in [0, 2^64) is written as exactly 16 lowercase hexadecimal digits |
| TraceRecord.FormatLineFields | traces/generate_traces_64.py:41 | a written line is processor, separator, operation letter, separator, 16-digit address and newline, each at its position |
| TraceScan.ScanDecimalOfDecimal | src/central_directory.c:625 | `%d` reads back Python's decimal rendering of any integer and stops at the separator |
| TraceScan.ScanHexOfHex016 | src/distributed_directory.c:225 | the hex conversion's value for the 16-digit rendering of any non-negative address is that address, and the rest of the line is left unread; the distributed simulator then keeps its low 32 bits (`DistributedDirectory.TraceLineMessage`) |
| TraceScan.SpaceLineRoundTrip | src/central_directory.c:625 | a line in the space-separated format parses back to the same processor, operation letter and address |
| TraceScan.CommaLineRejected | src/central_directory.c:625 | every line in the comma-separated format fails the `%d %c %lx` scan: `%c` reads the comma and `%lx` meets the operation letter |
| TraceSpec.RandInt | traces/generate_traces_64.py:38 | a `randint(lo, hi)` draw always lies in [lo, hi] |
| TraceSpec.RandIntReaches | traces/generate_traces_64.py:39 | every value in [lo, hi] is produced by some draw |
| TraceSpec.Choice | traces/generate_traces_64.py:40 | a `choice(xs)` draw is an element of xs |
| TraceSpec.ChoiceReaches | traces/generate_traces_64.py:153 | every element of xs is produced by some draw |
| TraceSpec.RandomAccessShape | traces/generate_traces_64.py:37-41 | exactly one record per access, each with processor in [0, n) and address in [0, mem_size) |
| TraceSpec.RandomAccessReaches | traces/generate_traces_64.py:37-41 | conversely, every sequence of in-range accesses is a possible random trace |
| TraceSpec.SharedDataError | traces/generate_traces_64.py:151-153 | the generator raises exactly when some access is asked for and the processor range or the shared list is empty |
| TraceSpec.SharedDataShape | traces/generate_traces_64.py:150-155 | one record per access; each processor in [0, n) and each address a member of the shared list |
| TraceSpec.BufferAddresses | traces/generate_traces_64.py:172 | the buffer is the indices 0 .. buffer_size-1 |
| TraceSpec.ProducerConsumerError | traces/generate_traces_64.py:173-175 | the generator raises exactly when some access is asked for and there are no processors or the buffer is empty |
| TraceSpec.ProducerConsumerShape | traces/generate_traces_64.py:171-177 | the operation is W exactly for even processors; every address lies in [0, buffer_size) |
| TraceSpec.FalseSharingError | traces/generate_traces_64.py:196-199 | the generator raises when the line size is below 1, even with no accesses, or when an access has no processor to draw |
| TraceSpec.FalseSharingShape | traces/generate_traces_64.py:196-202 | every record is a W to one and the same address, the drawn line start in [0, cache_line_size) |
| TraceSpec.StridedSharingShape | traces/generate_traces.py:194-198 | every record is a W at proc * cache_line_size; for a non-zero line size, two records share an address exactly when they share a processor |
| TraceSpec.MatrixMultError | traces/generate_traces_64.py:63-70 | `(m*m)//n` raises exactly for n = 0; the row draw raises exactly when an element must be drawn from an empty matrix |
| TraceSpec.CellBlockShape | traces/generate_traces_64.py:73-84 | one element is m pairs (R row*m+i, R i*m+col), then W row*m+col, all inside the m-by-m matrix |
| TraceSpec.ProcessorCellsLength | traces/generate_traces_64.py:67-84 | a processor's trace has 2m+1 records per element |
| TraceSpec.ProcessorCellsInMatrix | traces/generate_traces_64.py:67-84 | every record of a processor's trace is by that processor and inside the matrix |
| TraceSpec.MatrixMultLength | traces/generate_traces_64.py:66-84 | n processors with e elements each give n * e * (2m+1) records |
| TraceSpec.MatrixMultInMatrix | traces/generate_traces_64.py:66-84 | every record has a processor in [0, n) and an address below m*m |
| TraceSpec.MatrixMultProcView | traces/generate_traces_64.py:66-84 | the records of processor p are exactly its own element blocks, in order |
| TraceSpec.MatrixMultOrder | traces/generate_traces_64.py:66-84 | every processor id lies in [0, n) and the ids never decrease along the trace: processor 0's blocks come first, then processor 1's, and so on |
| TraceSpec.SequentialRunShape | traces/generate_traces_64.py:105-108 | processor p's a-th record is at p*length + a |
| TraceSpec.SequentialLength | traces/generate_traces_64.py:104-108 | the trace has n * length records |
| TraceSpec.SequentialRegions | traces/generate_traces_64.py:104-108 | processor p's addresses lie in [p*length, (p+1)*length) |
| TraceSpec.SequentialOrder | traces/generate_traces_64.py:104-108 | processors come in order and each processor's addresses strictly increase |
| TraceSpec.SequentialProcView | traces/generate_traces_64.py:104-108 | the records of processor p are exactly its own run |
| TraceSpec.SequentialDisjoint | traces/generate_traces_64.py:103-108 | different processors never touch the same address |
| TraceSpec.StrideError | traces/generate_traces_64.py:130-131 | the generator raises exactly when a processor's loop starts with step 0 |
| TraceSpec.StrideRunShape | traces/generate_traces_64.py:131-134 | a processor's k-th access is to k * stride, for either sign of the stride |
| TraceSpec.StrideOrder | traces/generate_traces_64.py:130-134 | n * length records, processors in [0, n) and in non-decreasing order |
| TraceSpec.StrideProcView | traces/generate_traces_64.py:130-134 | the records of processor p are exactly its strided run |
| TraceSpec.TransposeError | traces/generate_traces_64.py:221-223 | the generator raises exactly when the matrix is non-empty and n = 0 |
| TraceSpec.TransposeRowShape | traces/generate_traces_64.py:222-227 | within a row, element col contributes its read then its transposed write, at positions 2col and 2col+1 |
| TraceSpec.TransposeLength | traces/generate_traces_64.py:221-227 | the trace has 2m^2 records |
| TraceSpec.TransposeRowsAt | traces/generate_traces_64.py:221-227 | within the first r rows, element (row, col) contributes its read and transposed write at positions 2(row·m + col) and 2(row·m + col) + 1 |
| TraceSpec.TransposePositions | traces/generate_traces_64.py:221-227 | the trace has 2m² records; for element k = row·m + col, position 2k is the read of k and position 2k + 1 the write of col·m + row, both by processor k mod n |
| TraceSpec.TransposeCells | traces/generate_traces_64.py:221-227 | for each (row, col) the trace holds R row*m+col and W col*m+row by processor (row*m+col) mod n, and no other record |
| TraceSpec.TransposeInMatrix | traces/generate_traces_64.py:221-227 | every address is below m*m and, for positive n, every processor in [0, n) |
| TraceSpec.TransposeTwoByTwo | traces/generate_traces_64.py:216-227 | the 2x2 trace on two processors is exactly the eight records the formula gives |
| TraceGen.RandomAccess | traces/generate_traces_64.py:27-41 | the loop writes the scaled random trace, or raises ValueError exactly for an empty processor or element range (unit 8: traces/generate_traces.py:27-41) |
| TraceGen.MatrixMultiplication | traces/generate_traces_64.py:54-84 | the loops write the scaled matrix trace, or raise the error MatrixMultError names |
| TraceGen.EmitProcessorCells | traces/generate_traces_64.py:67-84 | one processor's element loop appends its cells or raises on an empty matrix |
| TraceGen.EmitCell | traces/generate_traces_64.py:73-84 | the inner loop and the write append exactly one element block |
| TraceGen.Sequential | traces/generate_traces_64.py:95-108 | the loops write exactly the scaled sequential trace |
| TraceGen.EmitSequentialRun | traces/generate_traces_64.py:105-108 | one processor's loop appends exactly its run |
| TraceGen.Stride | traces/generate_traces_64.py:120-134 | the loops write the scaled stride trace, or raise for step 0 |
| TraceGen.EmitStrideRun | traces/generate_traces_64.py:131-134 | one processor's `range(0, length*stride, stride)` loop appends exactly its strided run |
| TraceGen.SharedData | traces/generate_traces_64.py:146-155 | the loop writes the scaled shared-data trace or raises as SharedDataError says |
| TraceGen.ProducerConsumer | traces/generate_traces_64.py:167-177 | the loop writes the scaled producer-consumer trace or raises as ProducerConsumerError says |
| TraceGen.FalseSharingSameLine | traces/generate_traces_64.py:189-202 | the loop writes the same-line false-sharing trace or raises as FalseSharingError says |
| TraceGen.FalseSharingStrided | traces/generate_traces.py:189-198 | the loop writes W records at 8 * proc * cache_line_size or raises for an empty processor range |
| TraceGen.Transpose | traces/generate_traces_64.py:216-227 | the loops write the scaled transpose trace, or raise ZeroDivisionError exactly for a non-empty matrix and n = 0 |
| TraceGen.EmitTransposeRow | traces/generate_traces_64.py:222-227 | the inner loop appends exactly one row of reads and transposed writes |
| SingleCache.SetIndex | src/single_cache.c:212-213 | the set number is below 2^S |
| SingleCache.Tag | src/single_cache.c:214 | the tag fits 64 bits and is addr >> (S+B) for addresses that fit a signed long |
| SingleCache.FindHit | src/single_cache.c:216-225 | -1 exactly when no valid line has the tag, otherwise the first such line |
| SingleCache.FirstFreeFrom | src/single_cache.c:123-139 | the smallest line number from i on that no line of the set uses, -1 when all are used |
| SingleCache.FreeNumberExists | src/single_cache.c:123-139 | while the set holds fewer than E lines a free line number exists |
| SingleCache.MoveToTail | src/single_cache.c:85-117 | the line moves to the tail and the others keep their relative order |
| SingleCache.MoveKeepsNumbers | src/single_cache.c:85-117 | moving a line keeps the set's line numbers |
| SingleCache.AccessOutcome | src/single_cache.c:216-253 | an access is a hit exactly when a valid line has the tag, an eviction exactly on a miss in a full set (dirty as the head line was), otherwise a cold miss |
| SingleCache.AccessNeverExhausted | src/single_cache.c:233-242 | for E in int range a cold miss always finds a free line number |
| SingleCache.AccessMakesMostRecent | src/single_cache.c:254-256 | afterwards the tail line carries the tag; a store leaves it dirty, a load miss clean, a load hit with its old dirty bit |
| SingleCache.AccessThenHit | src/single_cache.c:216-256 | repeating an access to the same address is a hit |
| SingleCache.AccessSetOnHit | src/single_cache.c:218-228 | on a hit the hit line moves to the tail, dirty if stored to |
| SingleCache.AccessSetOnColdMiss | src/single_cache.c:233-242 | on a miss in a set with room a new line with the smallest free number is appended |
| SingleCache.AccessSetOnEviction | src/single_cache.c:243-253 | on a miss in a full set the head line is recycled to the tail with the new tag |
| SingleCache.AccessKeepsLineNumbers | src/single_cache.c:233-253 | only a cold miss adds a line number, a new one, and it grows linesFilled by one |
| SingleCache.AccessKeepsSetValid | src/single_cache.c:76 | the set invariant (list length = linesFilled <= E, distinct line numbers) is preserved |
| SingleCache.DirtyLines | src/single_cache.c:409-418 | the dirty lines are at most all lines |
| SingleCache.Cache.constructor | src/single_cache.c:149-178 | 2^s empty sets and zero counters |
| SingleCache.Cache.AddLine | src/single_cache.c:58-78 | a clean invalid line with the number is appended and linesFilled grows by one |
| SingleCache.Cache.RemoveLine | src/single_cache.c:85-117 | the line with the number moves to the tail, the rest keep their order |
| SingleCache.Cache.GetLineNum | src/single_cache.c:123-139 | returns the smallest unused line number in [0, E), or -1 |
| SingleCache.Cache.Access | src/single_cache.c:210-259 | the address's set becomes AccessSet and the counters count the outcome |
| SingleCache.Cache.HitLine | src/single_cache.c:218-228 | a hit updates the set as AccessSet says |
| SingleCache.Cache.MissLine | src/single_cache.c:230-256 | a miss updates the set and eviction counters as AccessSet says |
| SingleCache.Cache.TouchLine | src/single_cache.c:218-228 | the hit line moves to the tail, made dirty by a store |
| SingleCache.Cache.FillLine | src/single_cache.c:233-256 | a cold miss appends a fresh line; a full set recycles its head and counts the eviction, dirty as the head was |
| SingleCache.Cache.LoadUpdate | src/single_cache.c:210-259 | a load changes the address's set as AccessSet says and counts hit, miss, eviction and dirty eviction |
| SingleCache.Cache.StoreUpdate | src/single_cache.c:265-315 | a store does the same with the accessed line left dirty |
| SingleCache.Cache.MakeSummary | src/single_cache.c:399-423 | hits, misses and evictions are copied; dirty bytes are dirty lines * 2^B and dirty evictions * 2^B, as unsigned longs |
| SingleCache.NewCache | src/single_cache.c:149-178 | null exactly for e = 0; otherwise 2^s empty sets and zero counters |
| Utils.DirectoryIndex | src/utils.c:29-31 | address mod NUM_LINES with C's truncating `%`: in [0, NUM_LINES) for non-negative addresses |
| Utils.CalculateTag | src/utils.c:67-69 | the tag is at most the address |
| Utils.CalculateTagBounds | src/utils.c:67-69 | the tag is address >> (S+B): tag * 2^(S+B) <= address < (tag+1) * 2^(S+B) |
| Utils.Directory.constructor | src/utils.c:78-99 | numLines entries, each UNCACHED, owner -1, no presence bit |
| Utils.Cache.constructor | src/utils.c:110-164 | 2^s sets of e invalid, clean, INVALID lines with tag 0 and time 0; zero counters; the processor id stored |
| Utils.InvalidateMatching | src/utils.c:298-305 | every valid line with the tag becomes invalid and INVALID, keeping tag, dirty bit and time; other lines unchanged; no valid line with the tag remains |
| Utils.InvalidateMatchingIdempotent | src/utils.c:294-306 | invalidating twice equals invalidating once |
| Utils.InvalidateCacheLine | src/utils.c:294-306 | only the address's set changes, as InvalidateMatching says |
| Utils.InvalidateLines | src/utils.c:298-305 | the loop computes InvalidateMatching |
| Utils.SendInvalidate | src/utils.c:46-57 | exactly one INVALIDATE from memory to the destination is appended |
| Utils.Invalidations | src/central_directory.c:479-489 | one INVALIDATE to each wanted processor, in increasing id order, and nothing else |
| CentralDirectory.MessageIndex | src/central_directory.c:50-52 | the message address mod NUM_LINES, as an int |
| CentralDirectory.UpdateDirectoryEntry | src/central_directory.c:62-68 | state set; owner the processor exactly for EXCLUSIVE_MODIFIED, else -1; presence bits and other entries unchanged |
| CentralDirectory.InvalidateDirectoryEntry | src/central_directory.c:76-85 | the entry is reset to UNCACHED, -1, no sharers; on such an entry nothing changes |
| CentralDirectory.AddProcessorToEntry | src/central_directory.c:94-99 | exactly the processor's presence bit is set |
| CentralDirectory.RemoveProcessorFromEntry | src/central_directory.c:108-113 | exactly the processor's presence bit is cleared |
| CentralDirectory.ReadRequestEntry | src/central_directory.c:304-352 | the requester becomes present; from UNCACHED the entry becomes SHARED owned by the requester, otherwise state and owner are kept |
| CentralDirectory.HandleReadRequest | src/central_directory.c:304-352 | the entry becomes ReadRequestEntry and one READ_ACKNOWLEDGE goes to the requester, from memory for UNCACHED and from the owner otherwise |
| CentralDirectory.OtherSharers | src/central_directory.c:479-480 | the present processors other than the requester |
| CentralDirectory.WriteRequestMessages | src/central_directory.c:478-518 | unless UNCACHED, one INVALIDATE per other present processor in id order, then exactly one WRITE_ACKNOWLEDGE, last |
| CentralDirectory.WriteRequestEntry | src/central_directory.c:495-500 | EXCLUSIVE_MODIFIED, owned by and present only at the requester |
| CentralDirectory.HandleWriteRequest | src/central_directory.c:470-518 | the entry becomes WriteRequestEntry and WriteRequestMessages are sent |
| CentralDirectory.OwnerOnly | src/central_directory.c:496-499 | the clearing loop and the requester's bit leave exactly the requester present |
| CentralDirectory.SendInvalidations | src/central_directory.c:479-489 | the loop sends Invalidations for the other sharers |
| CentralDirectory.InvalidateAckEntry | src/central_directory.c:437-461 | the source's bit is cleared; with no bit left the entry is UNCACHED with owner -1, otherwise state and owner are kept |
| CentralDirectory.HandleInvalidateAcknowledge | src/central_directory.c:437-461 | the entry becomes InvalidateAckEntry |
| CentralDirectory.HandlersKeepCoherent | src/central_directory.c:304-526 | a coherent entry (well-formed; `UNCACHED` exactly when no presence bit is set; an `UNCACHED` entry has owner −1; the owner is −1 or a processor) stays coherent under read request, write request and invalidate acknowledge, and the initial entry is coherent |
| CentralDirectory.ExclusiveOwnerCanLeave | src/central_directory.c:304-526 | coherence does not keep the owner of an `EXCLUSIVE_MODIFIED` line among its holders: write by 0, read by 1, invalidate acknowledge from 0 leaves an exclusive entry owned by 0 that only 1 holds |
| CentralDirectory.WriteRequestInvalidatesOtherSharers | src/central_directory.c:478-489 | a processor is invalidated exactly when it was present and is not the requester |
| CentralDirectory.FindFirstMatch | src/central_directory.c:370-377 | the loop finds the first valid line with the tag, or -1 |
| CentralDirectory.ArgMax | src/central_directory.c:383-391 | the first position of the largest LRU counter |
| CentralDirectory.Victim | src/central_directory.c:381-391 | the first invalid line, otherwise the first line with the largest counter |
| CentralDirectory.ReadAckLines | src/central_directory.c:361-402 | a valid clean line with the tag results: the matching line on a hit, the victim on a miss; other lines unchanged |
| CentralDirectory.HandleReadAcknowledge | src/central_directory.c:361-402 | only the address's set changes, to ReadAckLines |
| CentralDirectory.FindVictim | src/central_directory.c:381-391 | the replacement loop computes Victim |
| CentralDirectory.InvalidateFirst | src/central_directory.c:419-425 | only the first valid matching line changes, to invalid and clean |
| CentralDirectory.InvalidateFirstRemovesTag | src/central_directory.c:419-425 | with unique tags in the set, no valid line with the tag remains |
| CentralDirectory.InvalidateInCache | src/central_directory.c:412-425 | one cache's set is updated by InvalidateFirst |
| CentralDirectory.HandleInvalidate | src/central_directory.c:410-428 | every processor's cache has InvalidateFirst applied to the address's set |
| CentralDirectory.InvalidateNext | src/central_directory.c:411-427 | one loop iteration handles cache i and leaves the other caches alone |
| CentralDirectory.SetDirtyOfFirst | src/central_directory.c:536-541 | only the first valid matching line gets the dirty bit; which line matches first is unchanged |
| CentralDirectory.AcknowledgeAfterUpdate | src/central_directory.c:527-577 | a write acknowledgement after a write update has the effect of the acknowledgement alone |
| CentralDirectory.SetDirtyInCache | src/central_directory.c:527-577 | only the address's set changes, by SetDirtyOfFirst |
| CentralDirectory.HandleWriteUpdate | src/central_directory.c:527-548 | the matching line, if any, becomes dirty; nothing else changes |
| CentralDirectory.HandleWriteAcknowledge | src/central_directory.c:556-577 | the matching line, if any, becomes clean; nothing else changes |
| CentralDirectory.InstructionMessage | src/central_directory.c:619-654 | a request exactly for a scanned line with a processor in [0, NUM_PROCESSORS) and op R or W: `READ_REQUEST` for R, `WRITE_REQUEST` for W, from that processor to itself, carrying the scanned address as an `unsigned long` |
| CentralDirectory.ServiceInstruction | src/central_directory.c:619-654 | the request, if any, is appended to the queue, nothing otherwise |
| CentralDirectory.ServiceGeneratedLine | src/central_directory.c:625-650 | a line from the 64-byte generators becomes the READ/WRITE request for the same processor and address |
| CentralDirectory.ServiceDropsCommaLine | src/central_directory.c:625-629 | a line from the 8-byte generators sends nothing |
| DistributedDirectory.SendReadData | src/distributed_directory.c:173-184 | one READ_ACKNOWLEDGE from memory to the destination is appended |
| DistributedDirectory.SendFetch | src/distributed_directory.c:197-208 | one FETCH from memory to the destination is appended |
| DistributedDirectory.FetchMessages | src/distributed_directory.c:39-52 | the requester gets data unless the line is exclusive without owner; only an exclusive line's owner is invalidated; the exact list, in send order, is INVALIDATE to the owner then FETCH to the requester for an owned exclusive line, nothing for an exclusive line without owner, and one READ_ACKNOWLEDGE to the requester otherwise |
| DistributedDirectory.FetchEntry | src/distributed_directory.c:54-60 | SHARED, owner -1, present exactly at the requester |
| DistributedDirectory.FetchFromDirectory | src/distributed_directory.c:34-61 | the entry becomes FetchEntry and FetchMessages are sent |
| DistributedDirectory.FetchEntryCoherent | src/distributed_directory.c:54-60 | the fetched entry is coherent |
| DistributedDirectory.OldestScan | src/distributed_directory.c:76-83 | the scan picks a line only if some line is invalid or older than ULONG_MAX; all lines after its pick are valid and not older; with every line valid it is the first least recently used |
| DistributedDirectory.OldestScanEvictsValidLine | src/distributed_directory.c:76-83 | in [invalid at time 100, valid at time 50] the scan replaces the valid line |
| DistributedDirectory.FreeOrOldest | src/distributed_directory.c:76-83 | the first invalid line when one exists, otherwise the first least recently used line |
| DistributedDirectory.FindOldest | src/distributed_directory.c:76-83 | the loop computes OldestScan |
| DistributedDirectory.FilledLine | src/distributed_directory.c:98-103 | the written line carries the tag, is valid, dirty exactly for MODIFIED, with the state and the current time |
| DistributedDirectory.AddLineToCacheSet | src/distributed_directory.c:70-104 | only the chosen line becomes FilledLine, both eviction counters count a valid dirty victim, nothing changes without a choice |
| DistributedDirectory.AllBut | src/distributed_directory.c:125-126 | every processor except the writer |
| DistributedDirectory.UpdatedEntry | src/distributed_directory.c:115-132 | the state, the writer as owner exactly for EXCLUSIVE_MODIFIED, and then every other presence bit cleared; the writer's bit untouched |
| DistributedDirectory.UpdateMessages | src/distributed_directory.c:124-130 | for EXCLUSIVE_MODIFIED one INVALIDATE to every other processor in id order, otherwise none |
| DistributedDirectory.UpdateDirectory | src/distributed_directory.c:115-132 | the entry becomes UpdatedEntry and UpdateMessages are sent |
| DistributedDirectory.InvalidateOthers | src/distributed_directory.c:125-130 | the loop clears every other bit and invalidates every other processor |
| DistributedDirectory.UpdatedEntryCoherent | src/distributed_directory.c:115-132 | an exclusive update of a coherent entry stays coherent exactly when the writer was present |
| DistributedDirectory.StateUpdatedEntry | src/distributed_directory.c:147-156 | the new state; UNCACHED resets owner and presence, other states keep them |
| DistributedDirectory.UpdateDirectoryState | src/distributed_directory.c:141-157 | nothing without a directory; otherwise the entry becomes StateUpdatedEntry |
| DistributedDirectory.NodeOf | src/distributed_directory.c:227 | the node is address / NUM_LINES, truncating |
| DistributedDirectory.TraceLineMessage | src/distributed_directory.c:217-252 | a request exactly for a scanned line with op R or W: `READ_REQUEST` for R, `WRITE_REQUEST` for W, from the scanned processor to the node of the address stored in an `int`, carrying that `int` as an `unsigned long` |
| DistributedDirectory.ProcessTraceLine | src/distributed_directory.c:217-252 | the request, if any, is appended to the incoming queue |
| DistributedDirectory.ProcessGeneratedLine | src/distributed_directory.c:225-244 | a 64-byte generator line with an `int`-sized processor and address becomes the request from that processor to node address / NUM_LINES |
| LimitedPointerDir.Sharers | src/limited_pointer_dir.c:106-117 | the ids other than -1 in the used slots |
| LimitedPointerDir.LpDirectory.constructor | src/limited_pointer_dir.c:13-29 | numLines entries, UNCACHED, owner -1, no slot used, every slot -1 |
| LimitedPointerDir.AddedEntry | src/limited_pointer_dir.c:90-97 | the processor goes to slot numSharedBy and the count grows by one; other slots, state and owner kept; the count stays within the slots |
| LimitedPointerDir.AddedEntrySharers | src/limited_pointer_dir.c:90-97 | the recorded sharers gain exactly the processor |
| LimitedPointerDir.UpdatedLpEntry | src/limited_pointer_dir.c:51-60 | the state, the processor as owner exactly for EXCLUSIVE_MODIFIED, and the processor added |
| LimitedPointerDir.UpdatedOwnerIsSharer | src/limited_pointer_dir.c:51-60 | after an exclusive update the owner is a recorded sharer |
| LimitedPointerDir.UpdateDirectoryEntry | src/limited_pointer_dir.c:51-60 | the entry becomes UpdatedLpEntry |
| LimitedPointerDir.AddProcessorToEntry | src/limited_pointer_dir.c:90-97 | the entry becomes AddedEntry |
| LimitedPointerDir.InvalidateDirectoryEntry | src/limited_pointer_dir.c:68-80 | the entry returns to its initial value; on that value nothing changes |
| LimitedPointerDir.RemovedEntry | src/limited_pointer_dir.c:106-117 | every used slot holding the processor becomes -1; count, state and owner kept |
| LimitedPointerDir.RemovedEntrySharers | src/limited_pointer_dir.c:106-117 | the recorded sharers lose exactly the processor |
| LimitedPointerDir.RemoveProcessorFromEntry | src/limited_pointer_dir.c:106-117 | the entry becomes RemovedEntry |
| Queues.Queue.constructor | src/queue.c:10-19 | an empty queue with front and rear null and size 0 |
| Queues.Queue.Enqueue | src/queue.c:27-49 | the element is appended at the rear and size grows by one; the linked-list invariant is kept |
| Queues.Queue.Dequeue | src/queue.c:57-74 | on a non-empty queue the front element is returned and removed; size shrinks by one |
| Queues.IsQueueEmpty | src/queue.c:106-108 | true exactly for a missing or empty queue |
| Queues.QueueSize | src/queue.c:94-97 | the number of elements, 0 for a missing queue |
| Queues.PeekQueue | src/queue.c:82-85 | the front element, none exactly when the queue is empty or missing |
| Queues.FirstInFirstOut | src/queue.c:27-74 | any sequence enqueued on a fresh queue is dequeued in the same order and leaves the queue empty |

## Left out

- Threads and locks. The mutexes and condition variables are no-ops. `dequeue`'s wait is a non-empty precondition of `Queues.Queue.Dequeue`. Thread creation in `main` is not modelled.
- `interconnectProcessMessages` and the rest of `src/interconnect.c`. The dispatch loops never terminate, and sending a message is modelled as appending to the interconnect's queue sequence.
- I/O and the command line:
  - file I/O, `printf`/`fprintf` and `print`;
  - the `main` functions, `displayUsage`, `printCache` and `updateCache`;
  - the generators' top-level calls.
- Wall-clock time. `getCurrentTime` and `updateLineUsage` are not modelled; the current time is a parameter of `DistributedDirectory.AddLineToCacheSet`.
- `readFromCache` and `writeToCache`. They call an undefined `findLineInSet`.
- Placeholders with no effect: `checkCacheConsistency`, `executeInstruction` and both `broadcastInvalidate` versions, whose sends are commented out.
- `handleUpdate`. It handles a message type the headers do not define.
- Memory management. The `free*` functions, `freeQueue` and the `malloc`-failure branches are not modelled.
- Randomness. Python's `random` state is replaced by explicit draws; distributions are not modelled.
- CentralDirectory.HandleReadAcknowledge: `updateLRUCounter` is not defined in the repository, so the set's LRU counters are a parameter and are not updated.
- CentralDirectory.HandleWriteRequest: `DIRECTORY_ID` is not defined in the repository; the model takes memory's id, -1.
- CentralDirectory.ServiceInstruction: the central simulator's single interconnect queue is modelled as `outgoingQueue`.
- Integer widths:
  - C `int` overflow of a queue `size` or `numSharedBy` is not modelled.
  - Python's `%d` formatting is unbounded.
  - Addresses of 2^64 or more are excluded by preconditions.
  - Shift counts of 64 or more (S + B ≥ 64) are undefined in C. `SingleCache.Tag`, `SingleCache.SetIndex` and `Utils.CalculateTag` accept them and divide by 2^(S+B), as an unbounded shift would.
  - A `%d` value beyond `int` is undefined in ISO C. The scanned processor id is kept as an unbounded integer, and `DistributedDirectory.ProcessGeneratedLine` requires an `int`-sized processor.
  - A `%lx` value beyond `unsigned long` is undefined in ISO C as well. `TraceScan.ScanHex` and its callers follow `strtoul`: such a value, negated or not, becomes `ULONG_MAX`.
  - A `%x` value beyond `unsigned int` is undefined in ISO C too. `DistributedDirectory.TraceLineMessage` follows glibc: the `strtoul` value is truncated to its low 32 bits and read as an `int` (`ToInt32(Saturate(..))`).
  - `1 << B` with B ≥ 31 overflows the `int` that `makeSummary` multiplies by (src/single_cache.c:419-420), which is undefined in C. `SingleCache.Cache.MakeSummary` requires B ≤ 30.
  - `1U << s` with s ≥ 32 is undefined in C (src/single_cache.c:150). `SingleCache.Cache.constructor` and `SingleCache.NewCache` require s < 32. `NewCache` shifts before it tests `e == 0`, so the model also leaves out s ≥ 32 with e = 0, for which the source would otherwise return NULL.
  - `Utils.Cache.constructor` requires s < 32. `initializeCache` counts its sets with an `unsigned int` (src/utils.c:138) against `numSets = 1UL << s`. For s ≥ 32 the counter wraps at 2^32 and the loop never ends, so no cache is built.
- DistributedDirectory.AddLineToCacheSet: the `set_t *` argument is modelled as the set's index in the cache.
- SingleCache.Cache.LoadUpdate: the unused `size` parameter of `loadUpdate` and `storeUpdate` is dropped.
- LimitedPointerDir.AddProcessorToEntry: requires a free slot, because the source leaves slot overflow unhandled.
- LimitedPointerDir.UpdateDirectoryEntry: requires a free slot (`numSharedBy < NUM_POINTERS`). The source writes `nodes[numSharedBy]` unchecked (src/limited_pointer_dir.c:57), so a full entry is an out-of-bounds write there.
- The header disagreement on `message_t.address` (`int` in include/interconnect.h) is resolved with include/utils.h: an `unsigned long`.

## Findings

| source | as written | input that shows it | evidently intended | confidence | as-written member | corrected member |
|---|---|---|---|---|---|---|
| traces/generate_traces.py:41 | the 8-byte generators write `proc, op, addr`, but the central simulator scans `%d %c %lx` (src/central_directory.c:625) and the distributed one `%d %c %x` (src/distributed_directory.c:225): in both, `%c` reads the comma and the hex conversion meets the operation letter | any record, e.g. `0, R, 0000000000000000` | lines the simulators can read: fields separated by spaces, as the 64-byte generators write them | not executed | TraceScan.CommaLineRejected | TraceScan.SpaceLineRoundTrip |
| src/distributed_directory.c:76-83 | the replacement scan takes an invalid line, or a line older than the line chosen so far, and keeps scanning, so a later, older valid line replaces an earlier invalid one | a set `[invalid, last used 100; valid, last used 50]`: the valid line is evicted | "an empty line or the least recently used line": an invalid line first, otherwise the least recently used | not executed | DistributedDirectory.OldestScanEvictsValidLine | DistributedDirectory.FreeOrOldest |
