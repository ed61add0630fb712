# Messenger core: model and proofs

This project models the hard parts of the messenger library in Dafny and proves what they promise:

- **The buffer list** (`Rope`, `Cursors`, `BufferList`, `BufferRuns`, `StaleCursors`, `Rebuild`, `Overwrite`,
  `Compare`, `WriteFd`, `RefCounts`). A byte string is a list of slices of shared memory. Slices, blocks and lists are
  modelled on the real heap: a list appends in place into a block whose earlier bytes other lists already
  show. A `world` is the set of all lists; its invariant (`BufferLists.World`) says that no slice reaches
  into memory somebody may still append to. The main theorem (`BufferRuns.Run`) is that every program of the
  twenty-one operations in `BufferRuns.Op` computes on lists what it computes on plain byte strings, in values
  and in outcomes. Programs read through the remembered cursor while it can be trusted; what a read yields
  after bytes were put in front of it is stated exactly in `StaleCursors`.
- **CRC-32C** (`Crc32c`, `Crc32cTables`, `Crc32cPolynomial`, `SctpCrc32`, `Message`). The slicing-by-8 loops equal the
  bytewise loop; the bytewise loop is division by the generator polynomial; the eight literal tables are the
  tables of the model; the checksum is affine in its initial value, injective in its register, and detects every change within four bytes.
  A word is its 32 bits, `w[i]` being the bit of weight 2^i. The eight tables are defined by their recurrence
  from the reflected polynomial 0x82F63B78, which is proved to be the generator 0x1EDC6F41 of section 12.1 of
  RFC 3720 and Appendix B of RFC 4960, bit-reversed.
- **The throttle** (`Throttle`, `ThrottleRuns`). Each public operation is one step under the lock; a blocked
  caller's wake-up is another. The class refines the step function; the run theorems are about the step
  function.
- **The dispatch queue** (`FifoQueue`, `DispatchQueue`, `DispatchRuns`, `DispatchFates`,
  `DispatchOrder`, `Dispatching`). The priority queue
  refines one sequence in dequeue order; the two worker threads and every outside caller interleave freely in
  the run theorems.
- **Base64 and the prebuffered stream buffer** (`Armor`, `Streambuf`).

`Bytes` and `Arith` hold the byte type and plain arithmetic facts.

## False as promised, and when it holds

- An unmodified message is accepted exactly when the receiver does not test header checksums the sender never
  computed, or the stale footer fields are right by chance: `Message.UnmodifiedAccepted`; a message rejected
  for this reason is given in `Message.UncheckedHeaderRejected`.
- The throttle's count is "granted plus taken minus returned" exactly in runs where no callback request of
  non-zero size had to queue, because such a request is charged at src/Throttle.cc:162 and again at line 108:
  `ThrottleRuns.LedgerExact`, and step by step `ThrottleRuns.LedgerStep`. A run that loses a unit that way is
  `ThrottleRuns.EntryChargeUnbalances`.
- A throttle whose units have all come back leaves its front waiter asleep exactly when that request does not
  fit beside the units charged to queued callbacks on entry: `ThrottleRuns.DrainedFront`. Such a callback
  request is then never run and admits nobody behind it (`ThrottleRuns.StuckForever`); a three-step run is
  `ThrottleRuns.EntryChargeBlocksItself`.
- A first read-back of a stream buffer returns everything exactly when neither storage area starts with code
  255, which `underflow` returns as a signed char equal to end-of-file: `Streambuf.ReadableIsAll`.
- After `push_front` or `claim_prepend` with the remembered cursor inside the list, a read at the remembered
  offset returns the bytes that stood there before. It is right exactly when nothing is asked for, too much is
  asked for, or those bytes happen to be the same; reads at other offsets are right:
  `StaleCursors.ReadAfterPushFront`, `StaleCursors.ReadAfterClaimPrepend`, and a wrong byte in
  `StaleCursors.WrongByte`.
- Writing into a list in place is a write to its value if its segments do not overlap; if two of them do,
  some one-byte `copy_in` changes the value elsewhere too: `Overwrite.CopyIn`, `Overwrite.OverlapShows`. Such a
  list is built in `Overwrite.OverlappingList`.

## Model

| member | source | states |
|---|---|---|
| Rope.MergedValue | src/buffer.cc:1322-1337 | appending a slice adds exactly its bytes and its length and leaves no empty segment; it adds a segment only if it neither continues the last one nor is empty |
| Rope.JoinViews | src/buffer.cc:1327-1331 | a slice that continues another in the same block shows the two byte strings one after the other |
| Rope.Clone | include/msgr/buffer.h:112-117 | a fresh, shareable block with the same bytes |
| Cursors.Advance | src/buffer.cc:778-814 | any move from any standing: forward it throws exactly when the target lies beyond the list, from an outgrown end always; backward it throws where it meets offset zero at a segment start, and aborts before the first byte otherwise. Where the offset is right this is success exactly for targets inside the list or at its end |
| Cursors.Forward | src/buffer.cc:781-797 | the forward loop, with the excess left over at the end of the list on failure |
| Cursors.Backward | src/buffer.cc:798-813 | the backward loop terminates, and exactly when it moves, throws or fails its assertion, wrapping offset included |
| Cursors.Onward | src/buffer.cc:781-797 | a move within the list keeps the offset equal to the bytes before it |
| Cursors.Seek | src/buffer.cc:816-822 | finds the cursor of an offset, for every offset up to the length and no other |
| Cursors.PlacedUnique | src/buffer.cc:1236-1276 | each offset has one cursor, so a remembered cursor with the right offset is what a fresh search would find |
| Cursors.PlacedBound | include/msgr/buffer.h:310-320 | a cursor's offset never exceeds the list |
| Cursors.CopyOut | src/buffer.cc:849-867 | delivers exactly the content from where the cursor stands, whatever its offset says, and fails exactly when that runs out |
| Cursors.CoherentIff | src/buffer.cc:1236-1243 | a remembered cursor is good if and only if copying starts at its own offset |
| Cursors.CopySome | src/buffer.cc:853-866 | one turn of a copying loop yields the content at the cursor and makes progress |
| Cursors.SegmentBytes | src/buffer.cc:1434-1460 | part of a segment is the part of the content at the lengths before it plus the offset into it |
| BufferLists.BufferList.Append | src/buffer.cc:1292-1314 | the list grows by exactly the data, every other list keeps its value, and all invariants hold again; what fits goes into the room there is, and for the rest one block is allocated, of as few whole pages as it needs |
| BufferLists.BufferList.AppendChar | src/buffer.cc:1278-1290 | the same for one character |
| BufferLists.BufferList.WriteTail | src/buffer.cc:727-733 | bytes written into the unused tail of a shared block are seen by no list |
| BufferLists.BufferList.Publish | src/buffer.cc:1301-1302 | the new bytes become a slice of this list; no other list changes and every slice stays below every append buffer's end |
| BufferLists.BufferList.Renew | src/buffer.cc:1309-1312 | a fresh, empty append buffer disturbs nobody |
| BufferLists.GrowTail | src/buffer.cc:719-733 | the ownership invariant survives the growth of an append buffer |
| BufferLists.BufferList.AppendSlice | src/buffer.cc:1322-1337 | adds exactly the chosen part of the slice and keeps the cursor coherent |
| BufferLists.BufferList.PushBack | include/msgr/buffer.h:412-417 | adds the slice's bytes; an empty slice is dropped |
| BufferLists.BufferList.PushRaw | include/msgr/buffer.h:418-421 | adds a block of its own |
| BufferLists.BufferList.AppendList | src/buffer.cc:1339-1345 | concatenation with another list, which keeps its own value |
| BufferLists.BufferList.Clear | include/msgr/buffer.h:396-401 | empties the list and rewinds the cursor |
| BufferLists.BufferList.Swap | src/buffer.cc:971-980 | exchanges contents and append buffers and rewinds both cursors, for one list or two |
| BufferLists.BufferList.MakeShareable | include/msgr/buffer.h:443-448 | content and cursor stay; afterwards all segments are shareable, and those that were already are untouched |
| BufferLists.BufferList.Copy | include/msgr/buffer.h:356-359 | the new list has the same value, joins the world without an append buffer, and all its segments are shareable |
| BufferLists.BufferList.Assign | include/msgr/buffer.h:360-367 | takes over the other list's value in shareable segments; self-assignment included |
| BufferLists.BufferList.ClaimAppend | src/buffer.cc:1214-1223 | concatenation; the segments taken over are shareable unless the caller allows otherwise, and the donor is left empty with its cursor rewound |
| BufferLists.BufferList.ClaimPrepend | src/buffer.cc:1225-1234 | concatenation in front, with the same promise about the segments; the cursor survives exactly if it was at the end |
| BufferLists.BufferList.PushFront | include/msgr/buffer.h:402-407 | adds the bytes in front; the cursor survives exactly if it was at the end |
| BufferLists.UsableInFront | include/msgr/buffer.h:402-407 | segments put in front move what a cursor inside the list reads by their length |
| BufferLists.CoherentInFront | include/msgr/buffer.h:402-407 | so it can be trusted afterwards if and only if it stands at the end |
| StaleCursors.ReadAfterPushFront | include/msgr/buffer.h:402-407 | a read at the remembered offset returns the bytes that stood there before `push_front`; it is right if and only if excused, and reads elsewhere are right |
| StaleCursors.ReadAfterClaimPrepend | src/buffer.cc:1225-1243 | the same after `claim_prepend` |
| StaleCursors.RightExactly | src/buffer.cc:1236-1243 | the condition under which a lagging cursor gives the right answer, exactly |
| StaleCursors.WrongByte | src/buffer.cc:1236-1243 | "abc", one byte read, "X" in front, one byte read at offset 1 gives 'b' |
| BufferLists.CoherentMerged | src/buffer.cc:1325-1336 | a remembered cursor stays good through an append, tail merge or not |
| BufferLists.CoherentConcat | src/buffer.cc:1214-1223 | a remembered cursor stays good when segments join the end |
| BufferLists.BufferList.SubstrOf | src/buffer.cc:1426-1461 | exactly content[off..off+len] of the other list, which is unchanged, in no other memory than that list's; out of range throws and changes nothing |
| BufferLists.BufferList.Splice | src/buffer.cc:1464-1527 | the old content falls into kept prefix, removed middle (cut short at the end) and kept suffix; a claiming list gets exactly the middle; throws exactly when a non-empty range starts beyond the end |
| BufferLists.BufferList.CutStep | src/buffer.cc:1499-1522 | one turn of the cutting loop hands over and removes the same bytes |
| BufferLists.BufferList.Divide | src/buffer.cc:1475-1497 | finding the segment and keeping its front bit splits the content at the offset |
| BufferLists.BufferList.ReadThrough | src/buffer.cc:1236-1243 | reads through any usable cursor: the bytes from where it stands if its offset is asked for, else those asked for |
| BufferLists.BufferList.Read | src/buffer.cc:1236-1243 | reads through the remembered cursor return content[off..off+len]; out of range throws |
| BufferLists.BufferList.ReadString | src/buffer.cc:1254-1259 | the variant without the range check: what there is is delivered, and the cursor stays usable after the failure |
| BufferLists.BufferList.CopyTo | src/buffer.cc:1245-1252 | the destination gains exactly content[off..off+len]; out of range throws |
| BufferLists.BufferList.CopySlices | src/buffer.cc:875-891 | the loop behind it, from any placed cursor |
| BufferRuns.Run | src/buffer.cc:1126-1527 | every program of creating, copying, assigning, appending, putting in front, claiming, cutting, splicing, swapping, clearing, rebuilding and reading lists that share memory has the values and outcomes it has on byte strings |
| BufferRuns.Step | src/buffer.cc:1214-1527 | one operation keeps the world invariant, all cursors, and the agreement of every list with its byte string |
| BufferRuns.DoAppend | src/buffer.cc:1292-1314 | append seen from all lists at once: one value changes |
| BufferRuns.DoSpliceInto | src/buffer.cc:1464-1527 | splice with a claiming list seen from all lists at once: two values change |
| Rebuild.MaskIsRemainder | include/msgr/buffer.h:205-207 | masking an address with one less than a power of two is its remainder |
| Rebuild.CopyAll | src/buffer.cc:1140-1148 | the new block holds the value of the list |
| Rebuild.RebuildAll | src/buffer.cc:1126-1153 | the value stays and at most one segment remains, page aligned if it is whole pages |
| Rebuild.GetContiguous | src/buffer.cc:1401-1424 | one slice showing content[off..off+len], with the list's value unchanged, and the list untouched if the range lies in one segment; throws exactly when out of range |
| Rebuild.RunEnd | src/buffer.cc:1179-1191 | the do-while loop ends at the first place where it may: the end of the list, or a segment that needs no work behind a multiple of the size |
| Rebuild.RunReplaced | src/buffer.cc:1192-1197 | a run replaced by one segment with its bytes leaves value and length unchanged |
| Rebuild.Fix | src/buffer.cc:1176-1197 | one turn: the run becomes one segment and what is before it stays; a run that is one aligned segment is not copied |
| Rebuild.RebuildAligned | src/buffer.cc:1160-1199 | content stays; afterwards every segment starts at a multiple of the memory alignment and every one but possibly the last has a multiple of the size; segments at the front that need nothing are not touched |
| Compare.ContentsEqual | src/buffer.cc:982-1011 | true exactly when the two byte strings are equal, however each list is cut |
| Overwrite.CopyIn | src/buffer.cc:931-949 | fails exactly when there is too little room; without overlapping segments the value changes there and nowhere else; slices sharing no byte see nothing |
| Overwrite.Zero | src/buffer.cc:1079-1109 | the four-way loop clears exactly the range |
| Overwrite.ZeroAll | src/buffer.cc:1071-1077 | the whole value becomes zero, overlapping segments or not |
| Overwrite.WriteSegment | src/buffer.cc:735-741 | a write inside one segment is a write at its place in the value |
| Overwrite.OverlapShows | src/buffer.cc:931-949 | with two overlapping segments some one-byte `copy_in` is not a write to the value |
| Overwrite.OverlappingList | src/buffer.cc:1339-1345 | a copy of a list with the list appended overlaps itself |
| Overwrite.CopyInSome | src/buffer.cc:936-948 | one turn of the loop |
| WriteFd.Recover | src/buffer.cc:1695-1707 | skips exactly the bytes written and never runs past the batch |
| WriteFd.OfferInBatch | src/buffer.cc:1678-1681 | inside a batch of up to 1023 segments the kernel is offered what is left of it |
| WriteFd.SendBatch | src/buffer.cc:1679-1711 | what the kernel accepted of a batch is a prefix of it, as long as the script says; the loop goes on after every partial write and EINTR and stops at the first other error |
| WriteFd.WriteFd | src/buffer.cc:1658-1715 | for every script: the accepted bytes are the prefix of the content whose length the script gives; the first error other than EINTR is returned, EAGAIN after progress returns the count, and otherwise the whole content is out and nothing more is written |
| RefCounts.Handle.Null | include/msgr/buffer.h:184 | a pointer to nothing |
| RefCounts.Handle.Release | src/buffer.cc:614-624 | drops one reference and deletes the block exactly at zero |
| RefCounts.Handle.Copy | src/buffer.cc:549-556 | same bytes, one more reference |
| RefCounts.Handle.Sub | src/buffer.cc:557-564 | the chosen part, one more reference |
| RefCounts.Handle.Assign | src/buffer.cc:565-581 | takes over the other pointer's bytes with exact counts, self-assignment included |
| RefCounts.Handle.Swap | src/buffer.cc:601-612 | exchanges the two pointers, or one with itself, with exact counts |
| RefCounts.Handle.MakeShareable | src/buffer.cc:588-599 | the bytes stay, the block is shareable, counts stay exact |
| RefCounts.Handle.Destroy | include/msgr/buffer.h:191-193 | the pointer leaves and its reference goes with it |
| RefCounts.NeverDangling | src/buffer.cc:614-624 | a live pointer never points to a deleted block |
| RefCounts.Run | src/buffer.cc:529-624 | after any sequence of operations each count is the number of live pointers, exactly the blocks without any are deleted, and every pointer shows the bytes it should |
| Crc32c.TableIsShift | src/sctp_crc32.c:86-514 | entry i of table k is the register i shifted 8(k+1) times |
| Crc32cTables.PolyIsNumber | src/sctp_crc32.c:86-98 | the polynomial is the number 0x82F63B78 |
| Crc32cTables.PolyIsGenerator | src/sctp_crc32.c:86-98 | bit i of the polynomial is bit 31-i of 0x1EDC6F41 |
| Crc32cTables.TableAdditive | src/sctp_crc32.c:86-514 | every table is additive over xor, so its entries at the powers of two fix it |
| Crc32cTables.TableEntry | src/sctp_crc32.c:86-514 | those entries are the numbers one register step apart that `Row0` to `Row7` spell out |
| Crc32cTables.Row0 | src/sctp_crc32.c:98-133 | the literal entries of table 0 at 128, 64, ..., 1 |
| Crc32cTables.Row1 | src/sctp_crc32.c:152-187 | the same for table 1 |
| Crc32cTables.Row2 | src/sctp_crc32.c:206-241 | the same for table 2 |
| Crc32cTables.Row3 | src/sctp_crc32.c:260-295 | the same for table 3 |
| Crc32cTables.Row4 | src/sctp_crc32.c:314-349 | the same for table 4 |
| Crc32cTables.Row5 | src/sctp_crc32.c:368-403 | the same for table 5 |
| Crc32cTables.Row6 | src/sctp_crc32.c:422-457 | the same for table 6 |
| Crc32cTables.Row7 | src/sctp_crc32.c:476-511 | the same for table 7 |
| Crc32cPolynomial.Shift1Poly | src/crc32c_intel_baseline.c:113-136 | one bit of the register multiplies by x modulo the generator |
| Crc32cPolynomial.CrcPoly | src/crc32c_intel_baseline.c:113-136 | modulo the generator the register holds its initial value shifted up plus the message times x^32 |
| Crc32cPolynomial.CrcIsRemainder | src/crc32c_intel_baseline.c:113-136 | the checksum from zero is the remainder of the message times x^32, and nothing else of degree below 32 is |
| Crc32cPolynomial.RemainderUnique | src/crc32c_intel_baseline.c:113-136 | two polynomials of degree below 32 that are congruent are equal |
| Crc32c.SliceIsCrc | src/sctp_crc32.c:535-572 | one turn of the 8-byte loop is eight bytewise steps |
| Crc32c.CrcConcat | src/buffer.cc:1750-1789 | the checksum of a concatenation continues from the checksum of the first part |
| Crc32c.CrcAffine | src/buffer.cc:1767-1775 | crc(v xor w, data) = crc(v, data) xor crc(w, zeros of the same length) |
| Crc32c.CrcInjectiveInInit | src/crc32c_intel_baseline.c:113-136 | different registers stay different through any data |
| Crc32c.CrcDetectsBurst | src/buffer.cc:1750-1789 | strings of equal length that differ only within four bytes have different checksums |
| SctpCrc32.SliceStep | src/sctp_crc32.c:535-572 | the loop body with its eight lookups computes eight bytewise steps |
| SctpCrc32.Sb8 | src/sctp_crc32.c:516-577 | prologue, 8-byte loop and tail together are the bytewise checksum, for every initial value, length and alignment |
| SctpCrc32.Sb8Zero | src/sctp_crc32.c:579-629 | the loop without data is the checksum of that many zero bytes |
| SctpCrc32.UpdateCrc32 | src/sctp_crc32.c:646-661 | with or without data, the checksum of the (zero-filled) buffer |
| SctpCrc32.Baseline | src/crc32c_intel_baseline.c:113-136 | the simple loop is the bytewise checksum, so both implementations agree |
| Message.ListCrc | src/buffer.cc:1750-1789 | the checksum of a list is that of its content, however it is cut |
| Message.SeenValue | src/buffer.cc:1750-1789 | what is checksummed is the value of the slices, so rearranging a list never changes its checksum |
| Message.Outgoing.Encode | src/Message.cc:37-94 | the whole envelope after encoding: lengths, compatibility version, checksums, the header checksum over the header as it is then, and the flags: complete, not signed, and marked unchecked exactly when the data checksum was not computed |
| Message.VerifyCrcs | src/Message.cc:96-139 | accepts exactly when every tested checksum matches the footer |
| Message.UnmodifiedAccepted | src/Message.cc:37-139 | an unmodified message is accepted if and only if untested or stale-but-right header sums do not stand in the way |
| Message.Receive | src/async/AsyncConnection.cc:724-731 | a footer without the complete flag means aborted, whatever the checksums; else the message is accepted exactly when they match |
| Message.SendAndVerify | src/Message.cc:37-139 | encode followed by the receiver's tests, under every cutting into segments on either side: never taken for aborted, and accepted under exactly that condition |
| Message.UncheckedHeaderRejected | src/Message.cc:102-114 | a concrete unmodified message that is rejected |
| Message.BurstRejected | src/Message.cc:96-139 | a part altered only within four consecutive bytes is rejected |
| Message.LeadingZerosUnseen | src/Message.cc:102-104 | zero bytes in front of a part leave its checksum unchanged |
| Throttle.Throttle.SignalFirst | src/Throttle.cc:98-115 | the goto loop terminates and runs every callback waiter that can be admitted |
| Throttle.Throttle.Get | src/Throttle.cc:202-228 | one step of the state machine; waits exactly when it must queue |
| Throttle.Throttle.Wake | src/Throttle.cc:131-149 | a woken waiter leaves only from the front and when it fits, and signals the next before its own charge |
| Throttle.Throttle.GetCallback | src/Throttle.cc:230-255 | the callback request with its charge on entry |
| Throttle.Throttle.GetOrFail | src/Throttle.cc:259-286 | admits exactly when the queue is empty and the request fits |
| Throttle.Throttle.Take | src/Throttle.cc:181-200 | charges without asking |
| Throttle.Throttle.Put | src/Throttle.cc:288-314 | returns units and signals |
| ThrottleRuns.NoLostWakeup | src/Throttle.cc:89-164 | over every run, a front waiter that would be admitted at the current count is a blocking one already signalled, and its wake-up admits it |
| ThrottleRuns.SignalFirstAwakens | src/Throttle.cc:98-115 | signalling restores the wake-up invariant |
| ThrottleRuns.AdmittedInArrivalOrder | src/Throttle.cc:117-164 | over every run the admitted requests are exactly the first arrivals, in order |
| ThrottleRuns.LedgerStep | src/Throttle.cc:152-164 | a step keeps the promised account if and only if it is not a callback request of non-zero size that has to queue |
| ThrottleRuns.LedgerExact | src/Throttle.cc:104-112 | the account holds after a run if and only if no step met that guard |
| ThrottleRuns.DrainedFront | src/Throttle.cc:98-164 | when all units are back, the count is what was charged on entry, and the front waiter is on its way in if and only if it fits beside that |
| ThrottleRuns.StuckForever | src/Throttle.cc:98-164 | a front callback request that does not fit beside the entry charges is never run, and nobody is admitted, in any run that returns no more than was handed out |
| ThrottleRuns.LargeCallbackNeverRuns | src/Throttle.cc:152-164 | so a callback request for more than half of the maximum is never run once it queues |
| ThrottleRuns.EntryChargeBlocksItself | src/Throttle.cc:152-164 | a run from the start whose units all come back and whose callback sleeps for good |
| ThrottleRuns.QueuedCallbackChargedTwice | src/Throttle.cc:152-164 | a queued callback request is charged on entry and again when run |
| ThrottleRuns.EntryChargeUnbalances | src/Throttle.cc:152-164 | a run from the start that ends with every unit back, nobody waiting and one unit missing |
| ThrottleRuns.CountBounded | include/msgr/Throttle.h:49-56 | without takes, callbacks and resets the count stays within the maximum, or passes it by at most one oversized request |
| ThrottleRuns.AdmissionRule | include/msgr/Throttle.h:49-56 | who is let in at once, exactly |
| ThrottleRuns.NewMaximum | src/Throttle.cc:89-96 | a request that brings a new maximum sets it and is judged by it, behind whoever waits |
| ThrottleRuns.DisabledForever | src/Throttle.cc:33-39 | a throttle built with maximum 0 never changes |
| FifoQueue.InsertIsStable | src/FIFOQueue.h:126-136 | an item goes behind all of its priority and above, before all below |
| FifoQueue.InsertSorted | src/FIFOQueue.h:126-136 | insertion keeps the priority order |
| FifoQueue.InsertOfRank | src/FIFOQueue.h:126-128 | within a priority the queue is first in, first out; other priorities are unaffected |
| FifoQueue.Queue.ContentsSorted | src/FIFOQueue.h:146-160 | what the queue holds is in priority order, so stable insertion applies to it |
| FifoQueue.ClassPartition | src/FIFOQueue.h:113-124 | removal by class loses and invents nothing |
| FifoQueue.ClassSorted | src/FIFOQueue.h:113-124 | what stays is still in priority order |
| FifoQueue.Queue.EnqueueStrict | src/FIFOQueue.h:126-128 | the map of sub-queues refines stable insertion |
| FifoQueue.Queue.Enqueue | src/FIFOQueue.h:134-136 | the normal queue comes behind every priority |
| FifoQueue.Queue.Dequeue | src/FIFOQueue.h:146-160 | yields the head of the sequence and keeps no empty sub-queue |
| FifoQueue.Queue.RemoveByClass | src/FIFOQueue.h:113-124 | leaves the other classes in order and prepends the removed items in dequeue order |
| FifoQueue.RemoveFromSub | src/FIFOQueue.h:63-77 | the two loops on one sub-queue |
| FifoQueue.Queue.Length | src/FIFOQueue.h:88-97 | the number of items, its assertion included |
| DispatchRuns.ArrivalsInSync | src/DispatchQueue.h:66-80 | over every run both arrival containers hold exactly the queued messages and no assertion fails |
| DispatchRuns.QueueSorted | src/DispatchQueue.cc:71-86 | over every run the queue is in rank order |
| DispatchOrder.RankOrder | src/DispatchQueue.cc:79-85 | ranks follow priorities from 64 up, and all below 64 are one |
| DispatchOrder.TakenFirst | src/DispatchQueue.cc:71-141 | over every run the message taken has the highest priority of those from 64 up; one below 64 is taken only when no such message and no event waits; events go before every priority below 255 |
| DispatchOrder.DiscardExact | src/DispatchQueue.cc:181-194 | over every run discarding an id removes exactly the messages queued under it |
| DispatchOrder.ClassOrder | src/FIFOQueue.h:113-124 | removed items come out, and kept items stay, in queue order |
| DispatchOrder.EventsUntilStop | src/DispatchQueue.h:132-171 | events are queued and wake the dispatcher exactly until it is told to stop |
| DispatchOrder.IdsGrow | src/DispatchQueue.h:178-181 | an id is handed out once |
| DispatchOrder.LocalInOrder | src/DispatchQueue.cc:88-120 | over every run local messages are picked up in the order of their delivery, and none is lost |
| DispatchRuns.NoSleepingWorker | src/DispatchQueue.cc:71-179 | in every interleaving a worker asleep and unsignalled has an empty queue and no stop flag |
| DispatchRuns.ExitDrained | src/DispatchQueue.cc:99-179 | a worker exits only when told to and with its own queue empty |
| DispatchRuns.BytesConserved | src/DispatchQueue.cc:30-52 | over every run the bytes accepted are those released, dropped under the stop flag, or still held |
| DispatchRuns.ReleaseExact | src/DispatchQueue.cc:160-194 | releases happen only for dispatched or discarded messages, with their exact sizes |
| DispatchRuns.DropOnlyUnderStop | src/DispatchQueue.cc:162-169 | nothing is dropped unless the stop flag is up |
| DispatchFates.EachMessageOnce | src/DispatchQueue.cc:71-194 | over every run each accepted message is still held or was dispatched, discarded or dropped, one for one, whatever its size |
| DispatchFates.OneFateEach | src/DispatchQueue.cc:71-194 | from the start, at most one acceptance of a message is open, exactly while it is held |
| DispatchFates.ReleasedAsLogged | src/DispatchQueue.cc:30-52 | over every run the bytes released are the sizes of the messages dispatched or discarded, those dropped the sizes of the dropped |
| DispatchFates.NothingDropped | src/DispatchQueue.cc:160-170 | no message is dropped in a run without a shutdown |
| DispatchFates.TakenInOrder | src/DispatchQueue.cc:71-141 | within a priority messages are taken in the order in which they were queued, over every run, discarded ones left out |
| Dispatching.Dispatcher.Enqueue | src/DispatchQueue.cc:71-86 | the code refines the step: signal on empty, note the arrival, queue by priority |
| Dispatching.Dispatcher.QueueEvent | src/DispatchQueue.h:132-171 | the code refines the step, and does nothing under the stop flag |
| Dispatching.Dispatcher.Take | src/DispatchQueue.cc:134-178 | the head of the worker loop refines the step |
| Dispatching.Dispatcher.Deliver | src/DispatchQueue.cc:141-170 | what is done outside the lock refines the step: dispatch, or drop under the stop flag |
| Dispatching.Dispatcher.LocalDelivery | src/DispatchQueue.cc:88-97 | the code refines the step: signal on empty, then append |
| Dispatching.Dispatcher.TakeLocal | src/DispatchQueue.cc:102-120 | the head of the local loop refines the step: take, leave, or sleep |
| Dispatching.Dispatcher.PassOn | src/DispatchQueue.cc:108-115 | a local message is dispatched at once or enters the queue exactly like any other, under class 0 |
| Dispatching.Dispatcher.StopLocalDelivery | src/DispatchQueue.cc:210-217 | the first half of the shutdown refines its step |
| Dispatching.Dispatcher.StopDispatch | src/DispatchQueue.cc:217-225 | the second half, after the join, refines the two steps |
| Dispatching.Dispatcher.Discard | src/DispatchQueue.cc:181-194 | the removal loop refines the step and releases the sizes of what it removed |
| Dispatching.Dispatcher.MaxAge | src/DispatchQueue.cc:22-28 | the age of the oldest queued message |
| Armor.ArmorLineBreak | src/armor.c:50-94 | writes the encoding and returns its length, or -ERANGE exactly when it does not fit, with what fits written |
| Armor.Unarmor | src/armor.c:101-133 | writes the decoded bytes; -ERANGE exactly when they do not fit, else -EINVAL exactly for a malformed text |
| Armor.EncodesAlphabet | src/armor.c:14-19 | the encoder writes character c of the 64-character alphabet |
| Armor.DecodesAlphabet | src/armor.c:21-36 | the decoder reads a character as its place in the alphabet, '-' as 62, '_' as 63, '=' as 0, and no other |
| Armor.CharacterAt | src/armor.c:61-84 | character k stands for bits 6k to 6k+5 of the source, with '=' behind the last of them |
| Armor.BreaksOnly | src/armor.c:85-91 | line breaks are all that a line width adds |
| Armor.BreakAt | src/armor.c:85-91 | they stand behind every width characters when that is a positive multiple of four, else nowhere |
| Armor.RoundTrip | src/armor.c:50-133 | decoding undoes encoding for every byte string and every line width |
| Armor.EncodedLength | src/armor.c:85-91 | the encoded length is exact, line breaks included |
| Armor.DecodedLength | src/armor.c:113-130 | at most three bytes for four characters, malformed or not |
| Armor.BitsRoundTrip | src/armor.c:16-36 | every sextet survives, and no alphabet character is padding or a newline |
| Armor.QuadOfGroup | src/armor.c:117-128 | the four characters of a group read back as its one, two or three bytes |
| Armor.EncodeBase64 | src/buffer.cc:1539-1545 | the buffer of n*4/3+3 bytes always suffices |
| Armor.DecodeBase64 | src/buffer.cc:1547-1560 | the buffer of 4+n*3/4 bytes always suffices; only a malformed text fails |
| Armor.ThereAndBack | src/buffer.cc:1539-1560 | encoding then decoding never fails and is the identity |
| Streambuf.PrebufferedStreambuf.Overflow | src/PrebufferedStreambuf.cc:14-25 | the string starts at the buffer's length and doubles; the text is kept and the character added |
| Streambuf.PrebufferedStreambuf.Put | src/PrebufferedStreambuf.cc:4-25 | every written character is added, across any number of overflows |
| Streambuf.PrebufferedStreambuf.GetStr | src/PrebufferedStreambuf.cc:52-63 | returns everything written |
| Streambuf.PrebufferedStreambuf.Underflow | src/PrebufferedStreambuf.cc:27-50 | moves to the next area with unread characters, or reports the end |
| Streambuf.PrebufferedStreambuf.ReadBack | src/PrebufferedStreambuf.cc:27-50 | a first read-back returns the text up to an area that starts with code 255 |
| Streambuf.ReadableIsAll | src/PrebufferedStreambuf.cc:27-50 | the read-back is complete if and only if no area starts with code 255 |
| Streambuf.WriteAll | src/PrebufferedStreambuf.cc:4-63 | any text through any buffer of length at least 1 comes back from `get_str` |

## Left out

- Integer widths: lengths, offsets and counts are unbounded, so the behaviour beyond 2^31 bytes (src/buffer.cc:778, 821) and unsigned wrap-around are not modelled.
- Two operands that are the same list: `append(list)`, `claim_append`, `substr_of`, `splice` into itself and copying into itself are undefined or do not terminate in the source, so two different lists are required; `swap` and `operator=` are modelled for one list too.
- BufferLists.BufferList.Assign: promises nothing about the remembered cursor, which the source leaves pointing into replaced nodes; programs do not read through it until it is reset.
- Rebuild.RebuildAligned: promises nothing about the remembered cursor, for the same reason; nor does Rebuild.GetContiguous.
- Rebuild.RebuildAll: promises the cursor only if it stands at the end.
- Overwrite.CopyIn: describes the value after the write only when no two segments overlap, since otherwise it is no longer a plain write (Overwrite.OverlapShows).
- BufferLists.BufferList.Splice: does not model reads through iterators other than the list's own after the cut.
- WriteFd.WriteFd: the zero-copy branch (src/buffer.cc:1660-1661, 1717-1748) is not modelled, and IOV_MAX is taken to be 1024.
- Lists are modelled on slices and blocks, while reference counts are modelled for single pointers in `RefCounts`; the counts behind the segments of a list are not repeated in `BufferList`.
- A block's bytes do not change in `RefCounts`; writing through pointers is modelled in `Rope` and `Overwrite`.
- Allocation always succeeds; the allocator may put a block at any address that meets the requested alignment. Raw memory back ends, pipes and file descriptors are not modelled.
- `_memcopy_count`, hex dumps, stream output, `append(istream)`, `append_zero`, `share`, `operator[]` and the comparison operators, which would add only easy members.
- Checksums: the CPU-specific implementations and the disabled checksum cache.
- Message.Receive: the receiver's other steps, its test of the header checksum among them, are not modelled.
- Message.Outgoing.Encode: the payload encoding of each message type and the layout of the header in memory are parameters.
- Throttle: each operation that holds the lock is one step; reads of `max` outside the lock, perf counters, callbacks that call back into the throttle, `wait`, and `SimpleThrottle` are not modelled.
- ThrottleRuns.CountBounded: covers runs without `take`, callback requests and resets of the maximum, since each of these may exceed it by design.
- DispatchQueue: `start` and a restart after `wait`, the messenger's callbacks and its throttle are reduced to their steps and byte counts; stamps are integers.
- FIFOQueue: `remove_by_filter`, which cannot be instantiated as written, and the enqueue-at-front variants.
- Armor.EncodeBase64: the result is a value; attaching it to a list is `push_back`.
- Streambuf: a caller's buffer of length 0, whose first overflow writes past the string, is excluded; `sputc` and `sbumpc` follow the standard library's default behaviour; reading and writing in turns is not modelled, only a first read-back after all writes.
