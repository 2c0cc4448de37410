# A verified model of the hard algorithms in this repository

The project models, in Dafny, the parts of the repository that rest on an invariant no single
body shows, and proves what each of them is for. Every module stands for one component:

- `MergeSort`, `ListSort`: Linux `list_sort`, as functions on sequences and as methods that
  relink a circular doubly linked list in place. `part[]` is proved to be a binary counter.
- `Certificates`, `CertificateStore`, `Pbft`, `PbftProgress`: the certificates of libbyz, as values
  and as the counting object, and the normal case of the replication protocol as a step system with
  up to f Byzantine replicas among 3f+1: what it never does, and what each step and whole runs achieve.
- `Backoff`, `Runq`, `Tmoq`, `TmoqRuns`: the retransmission scheduler `tmoq`, first as a state
  machine over queues, deadlines, timers and a trace of events, with the loop of `runq` over all
  clock readings and callback decisions; then as intrusive queues on the heap, with runs that show
  the bounds to be exact.
- `LogAllocator`: the bump allocator with reference-counted chunks.
- `MpDelayed`: the delayed big-integer expressions, evaluated in place into a destination that
  may be one of their operands.
- `UnionFind`: weighted quick-union.
- `ITree`: post-order walks, deletion and searches of the intrusive tree.
- `HashTable`, `QHash`: the chained hash table with `pprev` links, and the map built on it.
- `Rabin`, `RabinRemainder`: the rolling fingerprint, and that it is the remainder of the bytes as a
  polynomial over GF(2). `KMax`: the k-th largest entry. `Bitmap`: packed booleans and their
  iterator. `HexDump`: rows laid out in place in a character buffer.
- `Powers`, `FiniteSets`, `Sequences`: arithmetic, cardinality and sequences shared by the others.

Where the code changes things in place, so does the model: classes and arrays, with each method
proved against a function on values, and the promises proved about that function. Error paths of
the source are results, not preconditions.

Some promises turn out to hold only under a condition. In each of these cases the code is kept as
it is and the exact condition is proved, in both directions:

- `malloc` of the log allocator asks for `sz < chunk_size`, but its loop ends only if a fresh
  chunk has room for its header and the block (`LogAllocator.MallocEndsIff`).
- `free` of the log allocator finds the chunk by a mask, although the header only asks for chunks of
  whole pages; the mask is right for every block exactly if the chunk size is a power of two
  (`LogAllocator.MaskFindsIff`). With any other size of a page or more a block goes astray
  (`LogAllocator.FreeGoesAstray`), for example at three pages (`LogAllocator.ThreePages`).
- `_invert0` reads the modulus again after it has written the result; over the modulus itself it
  gives the inverse exactly if that lies in the lower half (`MpDelayed.Invert0`), and 2 modulo 3
  is an example where it does not (`MpDelayed.InvertOverModulus`).
- The bitmap iterator adds 64 to a 32-bit index, and never ends if the last chunk reaches the edge
  of the index range and is one to skip (`Bitmap.IterationEndsIff`). `total_set` compares with a
  signed size (`Bitmap.YieldsTotal`).
- `hexdump` cuts the size to an int, and gets to its end exactly for sizes below 2^31
  (`HexDump.FinishesIff`).
- `K_max` documents `tmax` as the largest value of the type, but never counts an entry that equals
  it (`KMax.EndsIff`).
- `runq` on the last queue with a delay of zero ends only if the clock moves on or `timeout`
  declines often enough; in every other case it ends (`Runq.RunqEndsIff`,
  `TmoqRuns.EndlessCallback`).
- A certificate that is to be complete with 0 messages takes 2f+1 instead, so with f == 0 a prepared
  certificate, which asks for 2f prepares, waits for a prepare that nobody sends, and nothing is ever prepared
  (`PbftProgress.NoneWithoutBackups`); for every f above zero there is progress
  (`PbftProgress.Progress`).
- An element of `tmoq` may time out before minto * (2^maxsend - 1) has passed, exactly if the last
  delay is cut to 32 bits (`Backoff.TotalShiftedIff`, `TmoqRuns.EarliestTimeout`).
- The comment on `deleteall` in `itree.h` calls it broken and possibly fixed; it is proved never to
  read a deleted node (`ITree.DeleteAll`).

## Model

| member | source | states |
|---|---|---|
| `MergeSort.MergeAscending` | deps/list_sort.c:28-39 | if both sides are ascending and the first holds the earlier positions, the merge is ascending in the order of a stable sort |
| `MergeSort.InsertCounts` | deps/list_sort.c:127-138 | one more unit arriving at level lev steps the binary counter in part[] from k to k + 1, including the overflow level |
| `MergeSort.RunIsBinaryCounter` | deps/list_sort.c:108-139 | after k elements, level i below the top is occupied exactly if bit i of k is set and then holds 2^i elements; the top level holds all the rest |
| `MergeSort.RunMaxLev` | deps/list_sort.c:131-137 | max_lev is floor(log2 k), until the top level is reached |
| `MergeSort.RunOccupied` | deps/list_sort.c:131-145 | part[max_lev] is not empty once an element has been consumed, so the last merge has something to merge |
| `MergeSort.SortPermutes` | deps/list_sort.c:104-146 | the result has the same elements, whatever cmp returns |
| `MergeSort.SortIsStable` | deps/list_sort.c:90-146 | for every list of distinct nodes and every total preorder, the result is sorted and equivalent elements keep their order |
| `MergeSort.StableSortUnique` | deps/list_sort.c:96-102 | there is only one stable sort, so the specification determines the result |
| `MergeSort.InsertCost` | deps/list_sort.c:127-130 | charging each element one comparison for each level it rises pays for the carry merges, except for one into an occupied top level |
| `MergeSort.OverflowBound` | deps/list_sort.c:131-138 | the merges into an occupied top level cost at most n for each full unit of 2^19 nodes, and nothing below 2^20 nodes |
| `MergeSort.CollectCost` | deps/list_sort.c:141-143 | the same charge up to max_lev pays for the last merges |
| `MergeSort.SortCost` | deps/list_sort.c:96-97 | sorting n < 2^20 nodes calls cmp at most n * (floor(log2 n) + 1) times, and any number of nodes at most 20 * n + n * (n >> 19) times |
| `MergeSort.MergeCallsLeast` | deps/list_sort.c:28-39 | a merge compares at least as often as its shorter side is long |
| `ListSort.MergeChains` | deps/list_sort.c:21-41 | merge on the heap: two null-terminated chains become the one chain of Merge, and the calls of cmp are counted |
| `ListSort.LinkBoth` | deps/list_sort.c:60-69 | one step of the last merge links a node both ways behind the tail |
| `ListSort.RestoreRest` | deps/list_sort.c:71-87 | the do-while never reads through null, restores the remaining prev links and closes the circle |
| `ListSort.MergeAndRestoreBackLinks` | deps/list_sort.c:50-88 | from two chains that are not both empty, a circular doubly linked list in the order of Merge, with one call of cmp a node |
| `ListSort.BreakRing` | deps/list_sort.c:119-120 | the circle becomes a null-terminated chain through the same nodes |
| `ListSort.MergeLevel` | deps/list_sort.c:128-129 | part[lev] and cur become one chain, and the level is free |
| `ListSort.CarryUp` | deps/list_sort.c:127-130 | the inner loop carries cur through the occupied levels as Insert does |
| `ListSort.ConsumeOne` | deps/list_sort.c:122-139 | one round of the main loop is one step of the counter |
| `ListSort.ConsumeAll` | deps/list_sort.c:122-139 | the main loop leaves in part[] and max_lev what Run gives for the whole list |
| `ListSort.CollectLevels` | deps/list_sort.c:141-143 | the last loop merges the occupied levels below max_lev, lowest first |
| `ListSort.MergeAll` | deps/list_sort.c:141-145 | the last merges leave a well-formed circle |
| `ListSort.Sort` | deps/list_sort.c:104-146 | a well-formed circular doubly linked list stays one, through the same nodes in the order of MergeSort.Sort; that order is the stable sort if cmp is a total preorder, and the calls of cmp are bounded |
| `Certificates.AddValid` | deps/libbyz/Certificate.h:46-54 | adding keeps a value correct exactly if enough messages carry it and no other value has that many; a known correct value never changes |
| `Certificates.AddExactly` | deps/libbyz/Certificate.h:46-54 | a message whose sender has none yet and that matches the correct value, if known, gives its value exactly one sender more; any other message changes nothing |
| `Certificates.OthersRefused` | deps/libbyz/Certificate.h:51 | once the correct value is known, no sender of another value is ever added |
| `Certificates.CompleteCounts` | deps/libbyz/Certificate.h:169-170 | complete exactly if at least that many different replicas sent the correct value |
| `Certificates.CompleteFor` | deps/libbyz/Certificate.h:36-41 | for every value: it is the correct one and the certificate is complete exactly if enough different replicas sent it |
| `Certificates.AddMineValid` | deps/libbyz/Certificate.h:56-61 | the same for the own message, which is then mine |
| `Certificates.MarkStaleValid` | deps/libbyz/Certificate.h:90-91 | only the own message is kept, and the certificate stays valid |
| `CertificateStore.CountOneMore` | deps/libbyz/Certificate.h:127-146 | raising one counter keeps every counter the number of senders of its value |
| `CertificateStore.CountNew` | deps/libbyz/Certificate.h:141-143 | a new distinct value starts with no sender |
| `CertificateStore.Store.CValue` | deps/libbyz/Certificate.h:163-164 | the correct value, or none |
| `CertificateStore.Store.NumCorrect` | deps/libbyz/Certificate.h:166-167 | the counter of the correct value is the number of different replicas that sent it |
| `CertificateStore.Store.IsComplete` | deps/libbyz/Certificate.h:169-170 | complete exactly if at least that many different replicas sent the correct value |
| `CertificateStore.Store.IsEmpty` | deps/libbyz/Certificate.h:180-183 | empty exactly if there is no message |
| `CertificateStore.Store.Add` | deps/libbyz/Certificate.h:46-54 | true exactly if the message verifies, its sender has none yet and the correct value is unknown or equal to it; then it is stored, and otherwise nothing changes |
| `CertificateStore.Store.AddMine` | deps/libbyz/Certificate.h:56-61 | true exactly if the correct value is unknown or equal to it; then it is stored as mine, and otherwise nothing changes |
| `CertificateStore.Store.Clear` | deps/libbyz/Certificate.h:186-194 | an empty certificate is left |
| `Pbft.QuorumsMeet` | deps/libbyz/Node.h:146-151 | two sets of 2f+1 of 3f+1 replicas share a correct one |
| `Pbft.CompleteIsEvidence` | deps/libbyz/Prepared_cert.h:169-171 | a complete prepared certificate means that a pre-prepare and 2f matching prepares were sent by different replicas |
| `Pbft.EvidenceAgrees` | deps/libbyz/Prepared_cert.h:169-171 | two digests cannot both gather that evidence for one view and sequence number |
| `Pbft.SendPrePrepareStep` | deps/libbyz/Prepared_cert.h:130-137 | a primary that adds and sends a pre-prepare keeps the invariant |
| `Pbft.ReceivePrePrepareStep` | deps/libbyz/Prepared_cert.h:31-35 | a backup that accepts a pre-prepare before it has sent a prepare keeps the invariant |
| `Pbft.SendPrepareStep` | deps/libbyz/Prepared_cert.h:124-127 | a backup that adds and sends its prepare keeps the invariant |
| `Pbft.ReceivePrepareStep` | deps/libbyz/Prepared_cert.h:121 | collecting a prepare keeps the invariant |
| `Pbft.SendCommitStep` | deps/libbyz/Prepared_cert.h:169-171 | sending a commit on a complete prepared certificate keeps the invariant |
| `Pbft.ReceiveCommitStep` | deps/libbyz/Commit.h:88-91 | collecting a commit, which matches every other for its view and sequence number, keeps the invariant |
| `Pbft.MarkStaleStep` | deps/libbyz/Prepared_cert.h:195-200 | discarding the messages of others keeps the invariant |
| `Pbft.StepKeepsInv` | deps/libbyz/Prepared_cert.h:121-137 | every step of a correct replica and every message of a faulty one keeps the invariant |
| `Pbft.RunInv` | deps/libbyz/Prepared_cert.h:121-200 | the invariant holds in every state of every run |
| `Pbft.Agreement` | deps/libbyz/Prepared_cert.h:169-171 | in every run, at any two moments, two correct replicas with complete prepared certificates for the same view and sequence number have the same digest |
| `Pbft.RecordIsHistory` | deps/libbyz/Prepared_cert.h:169-171 | every record of a prepared digest tells of a moment of the run at which that replica had prepared it |
| `Pbft.EvidenceDecides` | deps/libbyz/Prepared_cert.h:169-171 | once there is evidence for a digest, no correct replica ever prepares another one |
| `Pbft.CommitsAgree` | deps/libbyz/Commit.h:88-91 | 2f+1 commits, which carry no digest, come from f+1 correct replicas that prepared one and the same digest |
| `Pbft.CommittedIsPrepared` | deps/libbyz/Certificate.h:166-170 | when a correct replica has collected 2f+1 commits, at least f+1 correct replicas have prepared one digest, and no correct replica ever prepares another |
| `Pbft.Turn` | deps/libbyz/Node.h:225-227 | the primary of view v is the replica that v names modulo 3f+1 |
| `PbftProgress.PrePrepareSent` | deps/libbyz/Prepared_cert.h:130-137 | the primary sends the pre-prepare and keeps it, complete, as its own |
| `PbftProgress.PrePrepareReceived` | deps/libbyz/Prepared_cert.h:31-35 | a backup keeps the pre-prepare next to the prepares it has, and notes whether its requests are there |
| `PbftProgress.PrepareSent` | deps/libbyz/Prepared_cert.h:124-127 | a backup sends a prepare with the digest of its pre-prepare and keeps it as mine |
| `PbftProgress.PrepareCounted` | deps/libbyz/Prepared_cert.h:121 | a received prepare whose sender has none yet and that matches makes the senders of its digest exactly one more; any other changes nothing |
| `PbftProgress.CommitCounted` | deps/libbyz/Commit.h:88-91 | a received commit is counted once for its sender |
| `PbftProgress.Staled` | deps/libbyz/Prepared_cert.h:195-200 | a certificate that is not complete keeps the own message alone, and the pre-prepare only in the primary; a complete one is left as it is |
| `PbftProgress.PreparedExactly` | deps/libbyz/Prepared_cert.h:169-171 | in every state with the invariant, a replica has prepared exactly if it holds the pre-prepare with its requests and prepares with its digest from 2f different replicas, or from one if f is zero |
| `PbftProgress.HeardPrepares` | deps/libbyz/Prepared_cert.h:169-171 | a pre-prepare and 2f matching prepares, and nothing that conflicts, make a prepared certificate complete |
| `PbftProgress.HearAll` | deps/libbyz/Prepared_cert.h:121 | receiving the prepares that any set of backups has sent leads to holding all of them |
| `PbftProgress.CollectedCommits` | deps/libbyz/Certificate.h:166-170 | 2f+1 received commits make the commit certificate complete |
| `PbftProgress.Progress` | deps/libbyz/Prepared_cert.h:121-171 | for every f above zero, any f faulty replicas, every view with a correct primary, every sequence number above zero and every digest, there is a run from the start at whose end 2f+1 correct replicas have prepared the digest and collected 2f+1 commits |
| `PbftProgress.NoneWithoutBackups` | deps/libbyz/Certificate.h:36-41 | with f == 0 no run ever prepares anything |
| `Backoff.ScheduleGood` | deps/sfslite-1.2/backoff.h:67-73 | after schedq the queue is empty or waits for a timer no later than its head |
| `Backoff.AppendGood` | deps/sfslite-1.2/backoff.h:90-98 | an element at the end of a queue keeps the deadlines ordered |
| `Backoff.UnlinkGood` | deps/sfslite-1.2/backoff.h:114-122 | taking an element out anywhere keeps the deadlines ordered and the timers early enough |
| `Backoff.InsertGood` | deps/sfslite-1.2/backoff.h:90-99 | insert as a whole keeps the scheduler's invariant |
| `Backoff.InsertAwake` | deps/sfslite-1.2/backoff.h:90-99 | no wake-up is lost by insert |
| `Backoff.InsertKept` | deps/sfslite-1.2/backoff.h:90-99 | every running element stays in a queue |
| `Backoff.FireGood` | deps/sfslite-1.2/backoff.h:61-62 | a timer that goes off leaves only its own queue without one |
| `Backoff.FirstTimeout` | deps/sfslite-1.2/backoff.h:75-107 | for every element started and not removed, xmit was called with 0, 1, ..., maxsend - 1 in that order before the first timeout, which comes no earlier than start plus all delays; that is minto * (2^maxsend - 1) exactly if the last delay is not cut to 32 bits |
| `Backoff.ShiftedAtMost` | deps/sfslite-1.2/backoff.h:92 | minto << qn is the full product exactly if that fits 32 bits, and otherwise less |
| `Backoff.TotalShiftedIff` | deps/sfslite-1.2/backoff.h:92 | the first n delays together are minto * (2^n - 1) exactly if the last of them is not cut to 32 bits, and otherwise less |
| `Backoff.CutDelay` | deps/sfslite-1.2/backoff.h:92 | with minto 2^31 and two sends the second delay is zero, and the total a third of the bound |
| `Runq.RoundSound` | deps/sfslite-1.2/backoff.h:79-87 | a round of the loop keeps the invariant, for any decision of timeout and any later reading of the clock |
| `Runq.RoundDue` | deps/sfslite-1.2/backoff.h:79-87 | a round leaves one entry fewer that is due, unless the entry comes back to the last queue with a deadline that has passed |
| `Runq.RoundsDue` | deps/sfslite-1.2/backoff.h:79-87 | after n rounds the head is due exactly if fewer of them retired an entry than were due at first |
| `Runq.RunqEndsIff` | deps/sfslite-1.2/backoff.h:75-88 | for all readings of a clock that does not go back and all decisions of timeout, the loop ends exactly if the queue is not the last one, or its delay is not zero, or nothing is due, or the clock passes now, or timeout declines as often as there are entries in the queue |
| `Tmoq.UnlinkFrom` | deps/sfslite-1.2/backoff.h:114-122 | taking an element out through its pprev slot leaves the rest of its queue well linked, first and plast included; doing it again changes nothing while its old neighbours are still next to each other |
| `Tmoq.AppendTo` | deps/sfslite-1.2/backoff.h:91-96 | appending through plast leaves the queue well linked with the element at its end |
| `Tmoq.Tmoq.constructor` | deps/sfslite-1.2/backoff.h:102-105 | all queues are empty and none is pending |
| `Tmoq.Tmoq.SchedQ` | deps/sfslite-1.2/backoff.h:67-73 | unless a callback is pending or the queue is empty, exactly one more callback is asked for, at the deadline of the head |
| `Tmoq.Tmoq.Insert` | deps/sfslite-1.2/backoff.h:90-99 | the element is at the end of its queue with deadline now plus delay and has been sent once more; all links, queue numbers and deadlines stay right |
| `Tmoq.Tmoq.Start` | deps/sfslite-1.2/backoff.h:107 | the element is running, has been sent once, and everything stays ready |
| `Tmoq.Tmoq.KeepTrying` | deps/sfslite-1.2/backoff.h:109-112 | an element past its last send is transmitted again and goes to the end of the last queue with a new deadline |
| `Tmoq.Tmoq.Remove` | deps/sfslite-1.2/backoff.h:114-122 | an element in a queue is in none afterwards; for one never started, past its last send or already removed nothing changes; everything stays ready |
| `Tmoq.Tmoq.RunOne` | deps/sfslite-1.2/backoff.h:80-86 | a round sends the head on to the next queue, or times it out and perhaps tries again, as Runq.Round says, and keeps all links, queue numbers and deadlines right |
| `Tmoq.Tmoq.RunLoop` | deps/sfslite-1.2/backoff.h:79-87 | wherever the loop ends at all, its heap form ends after the rounds that Runq.Rounds says |
| `Tmoq.Tmoq.RunQ` | deps/sfslite-1.2/backoff.h:75-88 | wherever it ends at all, runq leaves no element in its queue that was due when it began |
| `Tmoq.Tmoq.Tcb` | deps/sfslite-1.2/backoff.h:61-65 | after a timer callback every queue is well linked and ordered, every element is in the queue its qno names, and every queue that is not empty is pending |
| `TmoqRuns.EarliestTimeout` | deps/sfslite-1.2/backoff.h:61-107 | for every minto and maxsend there is a run whose first timeout comes exactly at start plus all delays, so the bound minto * (2^maxsend - 1) is missed exactly if the last delay is cut to 32 bits |
| `TmoqRuns.EndlessCallback` | deps/sfslite-1.2/backoff.h:61-88 | with minto 0, maxsend 1, a timeout that keeps trying and a clock that stands still, the callback for a started element never returns |
| `LogAllocator.MaskFindsIff` | deps/libbyz/Log_allocator.h:138 | the mask finds the chunk of every address exactly if the chunk size is a power of two |
| `LogAllocator.OtherSizeMisses` | deps/libbyz/Log_allocator.h:138 | with any other size the mask gives too large an address for all of the first chunk from the next power of two on |
| `LogAllocator.ThreePages` | deps/libbyz/Log_allocator.h:42-45 | at a chunk size of three pages, which the header allows, the address 0x4018 of the chunk at 0x3000 is masked to 0x4000 |
| `LogAllocator.WrongChunk` | deps/libbyz/Log_allocator.h:154-159 | taking any chunk but its own for that of a freed block leaves no valid heap |
| `LogAllocator.FreeGoesAstray` | deps/libbyz/Log_allocator.h:135-160 | for every chunk size above 26 that is not a power of two, two calls of malloc on a new allocator give a block whose masked address is no chunk |
| `LogAllocator.ChunksApart` | deps/libbyz/Log_allocator.h:87-92 | chunks at different addresses do not overlap |
| `LogAllocator.BumpApart` | deps/libbyz/Log_allocator.h:104-107 | a new block overlaps no live block |
| `LogAllocator.BumpValid` | deps/libbyz/Log_allocator.h:104-112 | taking a block from the current chunk keeps blocks apart and in their data areas, and counts right |
| `LogAllocator.ReuseValid` | deps/libbyz/Log_allocator.h:116-118 | a full current chunk with a count of one holds no block and may start over |
| `LogAllocator.TakeValid` | deps/libbyz/Log_allocator.h:119-122 | a full chunk with blocks gives way to an unused or a new one, and can be freed later |
| `LogAllocator.RenewValid` | deps/libbyz/Log_allocator.h:115-122 | after a full pass the current chunk is empty and the heap is valid |
| `LogAllocator.MallocEndsIff` | deps/libbyz/Log_allocator.h:97-124 | the loop of malloc finds room on some pass exactly if header and block fit a fresh chunk, and then on the first or second |
| `LogAllocator.ReleaseValid` | deps/libbyz/Log_allocator.h:135-160 | freeing a live block from its chunk keeps the heap valid, and the chunk it empties is not the current one |
| `LogAllocator.LastIsCurrent` | deps/libbyz/Log_allocator.h:163-164 | a block that passes the test of realloc lies in the current chunk, whatever the chunk size and the mask |
| `LogAllocator.ResizeValid` | deps/libbyz/Log_allocator.h:162-172 | resizing the last block of the current chunk keeps the heap valid |
| `LogAllocator.FreeExactly` | deps/libbyz/Log_allocator.h:70-71 | a chunk is on the free list exactly if it is not current and holds no live block |
| `LogAllocator.LogAllocator.constructor` | deps/libbyz/Log_allocator.h:42-45 | one chunk, which is current, counts itself alone and is free behind its header; no block |
| `LogAllocator.LogAllocator.TakeChunk` | deps/libbyz/Log_allocator.h:80-81 | the new chunk comes from the free list if there is one, and is initialised |
| `LogAllocator.LogAllocator.Malloc` | deps/libbyz/Log_allocator.h:97-124 | a block that was not live before, at the free area of the current chunk or, on a second pass, behind the header of a fresh one, whose free area then starts after it; every other block stays |
| `LogAllocator.MallocThenFree` | deps/libbyz/Log_allocator.h:149-152 | freeing the block that malloc has just taken gives back the same heap, so the next malloc finds it again |
| `LogAllocator.LogAllocator.RenewChunk` | deps/libbyz/Log_allocator.h:115-122 | a full chunk that holds no block starts over; any other is left, for one from the free list if there is one |
| `LogAllocator.FreeListPushed` | deps/libbyz/Log_allocator.h:126-129 | a chunk linked before the list is its new head, and the list holds exactly the unused chunks |
| `LogAllocator.LogAllocator.Free` | deps/libbyz/Log_allocator.h:135-160 | where the mask finds its chunk, exactly this block is no longer live and the heap stays valid; a block that ends at the free area of the current chunk is given back to it, and no other free area moves |
| `LogAllocator.LogAllocator.Realloc` | deps/libbyz/Log_allocator.h:162-172 | for every chunk size: true exactly for a last block of the current chunk that the mask finds, with room for the new size, which it then has; otherwise nothing changes |
| `MpDelayed.GetRes` | deps/sfslite-1.2/bigint.h:259-392 | for every delayed tree and every destination, also one that is an operand, the destination gets the tree's value and no other number changes |
| `MpDelayed.Evaluate` | deps/sfslite-1.2/bigint.h:105-107 | a new number gets the tree's value, and no operand changes |
| `MpDelayed.Build` | deps/sfslite-1.2/bigint.h:396-466 | the tree an expression builds, partly evaluated, stands for the eager value of the expression |
| `MpDelayed.BuildBinary` | deps/sfslite-1.2/bigint.h:396-429 | of two delayed operands the left one is evaluated at once and the value is the same |
| `MpDelayed.Assign` | deps/sfslite-1.2/bigint.h:118-120 | for every expression and every variable, also one that occurs in it, assignment stores the eager value and changes no other variable |
| `MpDelayed.AssignMinus` | deps/sfslite-1.2/bigint.h:396-429 | r = (x - y) - w, for all numbers, also with r as x or y |
| `MpDelayed.AssignMinusRight` | deps/sfslite-1.2/bigint.h:396-429 | r = x - (y - z), for all numbers, also with r among them |
| `MpDelayed.AssignMinusBoth` | deps/sfslite-1.2/bigint.h:396-429 | r = (x - y) - (z - w), for all numbers, also with r among them |
| `MpDelayed.AssignNegated` | deps/sfslite-1.2/bigint.h:396-466 | r = -((x - y) - z), for all numbers, also with r among them |
| `MpDelayed.BigInt.PostIncrement` | deps/sfslite-1.2/bigint.h:637-641 | the number is one more, and the result stands for the old value |
| `MpDelayed.BigInt.PostDecrement` | deps/sfslite-1.2/bigint.h:642-646 | the number is one less, and the result stands for the old value |
| `MpDelayed.AssignPostIncrement` | deps/sfslite-1.2/bigint.h:637-641 | r = x++ gives r the old value, also if r is x, which then ends unchanged |
| `MpDelayed.Invert0` | deps/sfslite-1.2/bigint.h:588-597 | the result is the inverse, or zero if there is none, exactly if the destination is not the modulus or the inverse lies in the lower half |
| `MpDelayed.InvertCases` | deps/sfslite-1.2/bigint.h:593-596 | what each branch leaves, for every result of the extended Euclidean algorithm |
| `MpDelayed.NoInverse` | deps/sfslite-1.2/bigint.h:593-594 | with a common divisor above one there is no inverse |
| `MpDelayed.InverseFromBezout` | deps/sfslite-1.2/bigint.h:595-596 | the inverse is unique, and is the coefficient or the coefficient plus the modulus |
| `MpDelayed.SignIsHalf` | deps/sfslite-1.2/bigint.h:595-596 | the coefficient is negative exactly if the inverse lies in the upper half |
| `MpDelayed.InvertOverModulus` | deps/sfslite-1.2/bigint.h:588-597 | inverting 2 modulo 3 over the modulus gives -2 |
| `UnionFind.ConnectedIsSmallest` | data/algs4-data/WeightedQuickUnionUF.java:136-148 | being joined by a path of united pairs is an equivalence that contains the pairs, and every other such relation contains it |
| `UnionFind.RepresentsInit` | data/algs4-data/WeightedQuickUnionUF.java:95-103 | the initial arrays represent no pair |
| `UnionFind.RepresentsHang` | data/algs4-data/WeightedQuickUnionUF.java:165-173 | hanging the smaller tree below the larger keeps the forest, the sizes, the balance, the classes and their number right |
| `UnionFind.HangBalanced` | data/algs4-data/WeightedQuickUnionUF.java:164-172 | 2^depth stays at most the size of the tree for every site |
| `UnionFind.DepthBound` | data/algs4-data/WeightedQuickUnionUF.java:121-126 | every depth is at most floor(log2 n) |
| `UnionFind.SamePair` | data/algs4-data/WeightedQuickUnionUF.java:162 | uniting two connected sites changes no connection |
| `UnionFind.WeightedQuickUnion.constructor` | data/algs4-data/WeightedQuickUnionUF.java:95-103 | n sites in n classes |
| `UnionFind.WeightedQuickUnion.Find` | data/algs4-data/WeightedQuickUnionUF.java:121-134 | out of bounds exactly if the site is; otherwise the root, after at most floor(log2 n) steps |
| `UnionFind.WeightedQuickUnion.IsConnected` | data/algs4-data/WeightedQuickUnionUF.java:146-148 | true exactly in the smallest equivalence relation that contains the united pairs |
| `UnionFind.WeightedQuickUnion.Union` | data/algs4-data/WeightedQuickUnionUF.java:159-174 | the pair is added, and count drops by one exactly if the sites were not connected |
| `ITree.PostNoDup` | deps/sfslite-1.2/itree.h:128-135 | the post-order of a tree names no node twice |
| `ITree.Successor` | deps/sfslite-1.2/itree.h:122-127 | the node after the i-th in post-order is its parent, or the first below the parent's other, right child |
| `ITree.MinPostorder` | deps/sfslite-1.2/itree.h:115-121 | the first node in post-order, or null for an empty tree |
| `ITree.NextPostorder` | deps/sfslite-1.2/itree.h:122-127 | the next node in post-order, or null after the last, reading only nodes from this one on |
| `ITree.DeleteAll` | deps/sfslite-1.2/itree.h:128-135 | every node is deleted, once and in post-order, and no deleted node is read |
| `ITree.DeleteSubtree` | deps/sfslite-1.2/itree.h:93-100 | the recursive form deletes the same nodes in the same order |
| `ITree.KeysSorted` | deps/sfslite-1.2/itree.h:278-279 | comparing any key with keys in order, duplicates included, gives above, then equal, then below |
| `ITree.FirstStep` | deps/sfslite-1.2/itree.h:166-178 | turning left or right at a node loses no first hit |
| `ITree.LastStep` | deps/sfslite-1.2/itree.h:207-216 | turning left or right at a node loses no last hit |
| `ITree.FirstUnique` | deps/sfslite-1.2/itree.h:162-179 | there is only one first hit |
| `ITree.Search` | deps/sfslite-1.2/itree.h:162-179 | the in-order first node with the key, or null exactly if there is none |
| `ITree.LowerBound` | deps/sfslite-1.2/itree.h:181-199 | the in-order first node whose key is not below, or null exactly if there is none |
| `ITree.UpperBound` | deps/sfslite-1.2/itree.h:201-219 | the in-order last node whose key is not above, or null exactly if there is none |
| `HashTable.PushChain` | deps/sfslite-1.2/ihash.h:128-134 | a slot put first in a bucket leaves all next and pprev links right |
| `HashTable.UnlinkSlot` | deps/sfslite-1.2/ihash.h:189-191 | a slot taken out through its pprev place leaves the rest of the chain well linked, wherever it was |
| `HashTable.InHome` | deps/sfslite-1.2/ihash.h:107 | a slot is in the bucket its hash value names, and in no other |
| `HashTable.Push` | deps/sfslite-1.2/ihash.h:128-134 | the table gains exactly this slot |
| `HashTable.Unlink` | deps/sfslite-1.2/ihash.h:181-192 | the table loses exactly this slot |
| `HashTable.Rehash` | deps/sfslite-1.2/ihash.h:155-158 | a larger table holds the same slots, each in its bucket |
| `HashTable.LookupVal` | deps/sfslite-1.2/ihash.h:139-146 | the first slot of the bucket with the hash value, or null exactly if there is none |
| `HashTable.NextVal` | deps/sfslite-1.2/ihash.h:148-153 | the next slot with the same hash value, or null exactly if there is none |
| `HashTable.FlatIsSlots` | deps/sfslite-1.2/ihash.h:194-215 | the order of first and next names every slot once |
| `HashTable.First` | deps/sfslite-1.2/ihash.h:194-200 | the first slot in that order, or null for an empty table |
| `HashTable.Next` | deps/sfslite-1.2/ihash.h:208-215 | the slot after this one in that order, or null after the last |
| `QHash.KeyedSize` | deps/sfslite-1.2/ihash.h:110-112 | there are as many slots as keys, up to equality |
| `QHash.FindKey` | deps/sfslite-1.2/qhash.h:79-84 | the first slot with the hash value and the key, or null exactly if there is none |
| `QHash.FoundIsSlot` | deps/sfslite-1.2/qhash.h:79-84 | that slot is the only one for the key, for any hash that respects equality |
| `QHash.QHash.constructor` | deps/sfslite-1.2/qhash.h:96 | an empty map |
| `QHash.QHash.GetSlot` | deps/sfslite-1.2/qhash.h:79-84 | the slot of the key's class, or null exactly if the map has no such key |
| `QHash.QHash.Grow` | deps/sfslite-1.2/ihash.h:155-158 | growing changes no slot |
| `QHash.QHash.InsertVal` | deps/sfslite-1.2/ihash.h:116-137 | the slot is added, entries stays the number of keys, and the table grows first exactly if it would be full |
| `QHash.QHash.Insert` | deps/sfslite-1.2/qhash.h:133-144 | the map is updated at the key, whether it was present or not |
| `QHash.QHash.Remove` | deps/sfslite-1.2/qhash.h:164-172 | the key's value is returned if it had one, and the map is the same without the key |
| `QHash.QHash.RemoveSlot` | deps/sfslite-1.2/ihash.h:181-192 | exactly this slot is gone, and entries stays the number of keys |
| `QHash.QHash.Lookup` | deps/sfslite-1.2/qhash.h:174-179 | the value the map has at the key, or none |
| `QHash.QHash.Visit` | deps/sfslite-1.2/qhash.h:289-304 | iterating from the first slot visits every slot once, as many as there are entries |
| `Rabin.AppendXor` | deps/sfslite-1.2/rabinpoly.h:46-47 | with an XOR-linear table, appending to a sum appends to each part |
| `Rabin.FoldXor` | deps/sfslite-1.2/rabinpoly.h:46-47 | the fingerprint of a string from a sum is the sum of two fingerprints |
| `Rabin.FoldDrop` | deps/sfslite-1.2/rabinpoly.h:62-68 | XOR with the fingerprint of a byte and zeros takes that byte off the front of a string |
| `Rabin.SlidesBytes` | deps/sfslite-1.2/rabinpoly.h:62-68 | the buffer holds the last 48 bytes, after the zeros of reset |
| `Rabin.Rolling` | deps/sfslite-1.2/rabinpoly.h:62-72 | after any number of slides from reset, the rolling fingerprint is the fold of append8 over the window |
| `Rabin.LastBytes` | deps/sfslite-1.2/rabinpoly.h:62-72 | after 48 slides or more it is the fold over the last 48 bytes alone |
| `Rabin.AppendFits` | deps/sfslite-1.2/rabinpoly.h:46-47 | if the entries of T take away the bits that appending moves out, append8 reads T below 256 and keeps the word in range |
| `Rabin.SlidesInRange` | deps/sfslite-1.2/rabinpoly.h:62-68 | then every slide reads T below 256 |
| `Rabin.AroundStep` | deps/sfslite-1.2/rabinpoly.h:63-66 | writing at the next position of the ring buffer drops the oldest byte and adds the new one |
| `Rabin.Window.Slide8` | deps/sfslite-1.2/rabinpoly.h:62-68 | the window is in the state of the bytes slid in so far and this one, which RabinRemainder.RollingIsRemainder says is a remainder |
| `Rabin.Window.Reset` | deps/sfslite-1.2/rabinpoly.h:69-72 | the window is in the state of no byte, without moving bufpos |
| `Rabin.WindowsAgree` | deps/sfslite-1.2/rabinpoly.h:62-72 | for any tables, two windows with the same bytes since their resets have the same fingerprint and bytes, whatever their bufpos |
| `RabinRemainder.AppendInjective` | deps/sfslite-1.2/rabinpoly.h:46-47 | appending different bytes never gives the same word, for any table |
| `RabinRemainder.OneByte` | deps/sfslite-1.2/rabinpoly.h:46-47 | if T[0] is zero, as in every linear table, a byte appended to nothing is its own fingerprint |
| `RabinRemainder.TableReduces` | deps/sfslite-1.2/rabinpoly.h:40-47 | a table that takes away multiples of the polynomial also keeps append8 in range |
| `RabinRemainder.AppendIsRemainder` | deps/sfslite-1.2/rabinpoly.h:46-47 | append8 computes the remainder of p * x^8 + m modulo the polynomial |
| `RabinRemainder.AppendDivides` | deps/sfslite-1.2/rabinpoly.h:46-47 | append8 is eight steps of binary long division |
| `RabinRemainder.FoldIsRemainder` | deps/sfslite-1.2/rabinpoly.h:46-47 | the fingerprint of a string is the remainder, by long division over all its bits, of the string as a polynomial over GF(2) |
| `RabinRemainder.RollingIsRemainder` | deps/sfslite-1.2/rabinpoly.h:62-72 | after 48 slides or more, the rolling fingerprint is the remainder of the last 48 bytes |
| `KMax.Pass` | deps/libbyz/K_max.h:19-32 | the largest value below the last one, and how often it occurs |
| `KMax.KMax` | deps/libbyz/K_max.h:5-40 | wherever the loop ends, k entries are as large as the result, which is the k-th largest entry if none equals tmax |
| `KMax.PassesKth` | deps/libbyz/K_max.h:18-38 | without an entry equal to tmax, the pass that reaches a count of k is at the k-th largest entry |
| `KMax.KthIsMaximal` | deps/libbyz/K_max.h:8-9 | k entries reach a value exactly if it is at most the result |
| `KMax.EndsIff` | deps/libbyz/K_max.h:18-38 | the loop ends exactly if k entries are below tmax or some entry is zero |
| `KMax.CorrectReach` | deps/libbyz/View_info.h:83-89 | with at most f faulty of 3f+1, the (f+1)-th largest view is reached by a correct replica, the (2f+1)-th by f+1 correct replicas |
| `KMax.NoneLarger` | deps/libbyz/View_info.h:83-85 | a larger view is reached by f replicas at most, which may all be faulty |
| `Bitmap.BitsWritten` | deps/libbyz/Bitmap.h:157-164 | setting or resetting a bit of a chunk changes that bit and no other |
| `Bitmap.Bitmap.constructor` | deps/libbyz/Bitmap.h:123-130 | every boolean has the value given |
| `Bitmap.Bitmap.Test` | deps/libbyz/Bitmap.h:175-178 | the i-th boolean |
| `Bitmap.Bitmap.Set` | deps/libbyz/Bitmap.h:185-188 | the i-th boolean is true and the others are as before |
| `Bitmap.Bitmap.Reset` | deps/libbyz/Bitmap.h:198-201 | the i-th boolean is false and the others are as before |
| `Bitmap.Bitmap.Assign` | deps/libbyz/Bitmap.h:191-195 | the i-th boolean has the value and the others are as before |
| `Bitmap.Bitmap.TotalSet` | deps/libbyz/Bitmap.h:220-226 | the number of true booleans if the size fits a signed int, and otherwise zero |
| `Bitmap.MatchesHas` | deps/libbyz/Bitmap.h:83-87 | an index is to be yielded exactly if it is in range and has the value |
| `Bitmap.MatchesAscend` | deps/libbyz/Bitmap.h:78-81 | the indices are ascending, so none is yielded twice |
| `Bitmap.AdvanceSkips` | deps/libbyz/Bitmap.h:247-262 | a round of the loop passes over indices without the value only, and a whole chunk is skipped only from its first index |
| `Bitmap.Iter.Get` | deps/libbyz/Bitmap.h:247-262 | the next matching index is yielded, or false exactly if none is left |
| `Bitmap.Yielded` | deps/libbyz/Bitmap.h:247-262 | repeated get yields exactly the matching indices, once each and ascending |
| `Bitmap.IterationEndsIff` | deps/libbyz/Bitmap.h:247-252 | iteration ends exactly if the 32-bit index does not wrap on the last chunk |
| `Bitmap.YieldsTotal` | deps/libbyz/Bitmap.h:220-226 | the number of indices yielded for true is total_set exactly if the size fits a signed int or no bit is set |
| `HexDump.ParseText` | src/hexdump.cpp:25-27 | hexadecimal text reads back as its number |
| `HexDump.RowAt` | src/hexdump.cpp:25-48 | digits, bracket, text and blanks each have their columns, and do not meet |
| `HexDump.RowHasNoNul` | src/hexdump.cpp:37-50 | no NUL comes before the end of the offset |
| `HexDump.ReadRow` | src/hexdump.cpp:30-48 | a row reads back as its bytes |
| `HexDump.ReadOffset` | src/hexdump.cpp:25-27 | a row reads back as its offset |
| `HexDump.AddByte` | src/hexdump.cpp:35-42 | one byte more is in its columns, all writes stay in the buffer, and the offset is untouched |
| `HexDump.FilledRow` | src/hexdump.cpp:45-48 | the bracket and the blank after it remove the last NUL and complete the row |
| `HexDump.FillRow` | src/hexdump.cpp:25-48 | the buffer holds exactly the row and then a NUL |
| `HexDump.Dump` | src/hexdump.cpp:17-54 | sixteen bytes to a row: every byte is in its place as two digits and, from column 39 on, as itself or a dot; the rows read back as the data, and so do the text columns where the data is printable |
| `HexDump.RowsShow` | src/hexdump.cpp:35-42 | byte i is the one in place i % 16 of row i / 16, with its two digits and its text |
| `HexDump.RowsText` | src/hexdump.cpp:37-39 | the text columns together show every byte: itself if it is printable, and otherwise a dot |
| `HexDump.ReadRows` | src/hexdump.cpp:17-54 | the rows together read back as exactly the input bytes |
| `HexDump.ReadOffsets` | src/hexdump.cpp:25-27 | row i shows the offset 16 * i |
| `HexDump.FinishesIff` | src/hexdump.cpp:15-22 | the dump gets to its end exactly for sizes below 2^31; a negative size counts as a large one |

## Left out

- PBFT view change, checkpoints, state transfer and recovery: the code that decides is not in the headers. A replica may leave a view or truncate its log at any time and then forgets.
- Message authentication and digests: senders are authenticated and digests do not collide.
- The bodies of Certificate::add, add_mine and mark_stale and the Prepared_cert constructor are not part of this model; the steps are the effects that the headers promise, and a prepared certificate is complete with 2f prepares.
- Certificate::make_complete overwrites a counter and is outside the counting invariant; Val_iter and encode/decode would only add easy members.
- ListSort.Sort: cmp is a pure function of its two nodes, and the message about long lists is not modelled.
- Tmoq.Tmoq.RunQ: asks for the condition of Runq.RunqEndsIff, without which the loop never ends. timeout does nothing or calls keeptrying, and xmit does not call back into the queue.
- Tmoq.Tmoq.Remove: asks of an element already removed that its old neighbours are still next to each other, because the source follows the links it left in it.
- Tmoq.Tmoq.Start: asks for an element in no queue, as the source silently does.
- LogAllocator.LogAllocator.Malloc: asks for header and block to fit a chunk, because otherwise its loop never ends (LogAllocator.MallocEndsIff).
- LogAllocator.LogAllocator.TakeChunk: the body of alloc_chunk is not part of this model; it takes from the free list or, without limit, from fresh memory, at multiples of the chunk size.
- LogAllocator.LogAllocator.Free: asks that the mask finds the block's chunk, because otherwise no valid heap is left (LogAllocator.WrongChunk, LogAllocator.FreeGoesAstray).
- LogAllocator.LogAllocator.Realloc: asks for a new size above zero, as malloc does. The debugging code that fills freed blocks is left out.
- MpDelayed.GetRes: the specialisation for two delayed operands hands its copied bigint itself to a function that takes a pointer, and the conversion for that is commented out in bigint.h; the model is the form meant, with the copy passed by value.
- MpDelayed.Invert0: asks for a modulus of at least one and takes the result of mpz_gcdext as given, with the bounds the GMP manual states. Other GMP primitives are total functions that read before they write.
- ITree: insertion and deletion in the red-black tree, whose bodies are not in the header, and the in-order walk built on them. clear () only sets the root to null.
- QHash.QHash.Grow: the body of _ihash_grow is not part of this model; it rehashes to 2n+1 buckets. Copying, traverse with callbacks and the other hash classes over the same core would only add easy members.
- Rabin.Rolling: the tables are assumed to be XOR-linear and U to hold each byte followed by 47 zeros, for Rabin.SlidesInRange T to take away what appending moves out, and for RabinRemainder T to take away j * x^shift * x^8 modulo the polynomial; calcT and the window constructor, which fill them, are not part of this model.
- KMax.KMax: asks for entries from zero to tmax, k at most n, and the condition of KMax.EndsIff, without which the loop never ends.
- Bitmap.Iter.Get: asks for an index that does not wrap; Bitmap.IterationEndsIff says what happens otherwise. Range operations, copying, encode/decode and setAll are left out.
- HexDump.Dump: asks for a size below 2^31; HexDump.FinishesIff says what happens otherwise. isprint is a parameter that is false of NUL.
- Ciphers and keys, RPC, DNS and NFS, asynchronous I/O, callbacks and reference counts, the GTK widgets and terminal code.
