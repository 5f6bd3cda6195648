# QEMU system core: model and proofs

This project models, in Dafny, the parts of QEMU's system core that keep explicit state through loops, lists and
interleavings, and proves what they promise for every input, every run and every interleaving.

| files | component |
|---|---|
| `Xbzrle`, `Endian`, `Wire`, `Bitmap`, `Migration` | live migration of guest RAM: the XBZRLE delta codec, the stream and its reader, the dirty bitmap, and the sender with a guest that keeps storing |
| `Radix`, `PageTree`, `PageMap`, `Compaction`, `Dispatch` | the physical page map: a radix tree with large leaves, its compaction, and the subpage tables, against a flat list of disjoint sections |
| `Requests`, `Tracking` | tracked block requests: serialisation by waiting and read-modify-write of unaligned writes, over every interleaving of coroutines |
| `Iovec`, `Multiwrite`, `ImageCommit` | merging of write requests and their completion; committing an overlay image into its backing image |
| `KdumpFormat`, `KdumpPages`, `Kdump` | the kdump writer against a specification reader |
| `EventNotify`, `EventWalk` | the event loop: no lost wake-up, and deferred deletion under nested polls |
| `Tlb` | the software TLB: page flushes in the presence of large pages |
| `Basics`, `Binary` | shared types and arithmetic; bits of numbers |

`dafny verify dfyconfig.toml` checks everything.

## How the code is modelled

- State that the C code updates in place is a class whose methods update fields; loops are loops with invariants, each
  proved against a specification function or predicate. Lists and tables are sequences and maps that the methods
  reassign.
- The guest in `Migration` is a schedule of stores that the sender lets run before every scan, between any two looks
  at guest memory within a scan, before and after every merge of the log, and before the guest is stopped. Merging the
  log into the bitmap is one step; a theorem about every schedule is a theorem about every interleaving of such steps.
- Coroutines in `Tracking` are steps between yield points. Begin, mark and first wait are one step; issuing a driver
  call, the driver's doing and the return from it are three. Driver calls take effect at one instant; a failed write
  changes nothing. Rounding may take the driver beyond the end of the device, where it finds zeros.
- Words of the XBZRLE encoder are 64 bits wide and have their lowest byte first.
- `EventNotify` has one step for each access to a shared variable, in sequentially consistent order. `EventWalk` has
  one step for each entry a walk looks at, with callbacks between the steps.
- Clocks, rate limits, driver outcomes, allocation failures and timers are arbitrary choices or parameters.
- Integers are unbounded. Where the width matters it is written out: 64-bit addresses in `Tlb` and
  `Dispatch.LeftOnPage`, words in `Xbzrle`, field widths in `Endian` and `KdumpPages`.

## Findings

- **A page can be lost in migration.** A scan of the first pass takes the page after its cursor without looking
  (`third-party/qemu-orp/arch_init.c:426-427`). When the first pass has just sent the last page of the last block, that
  page has been marked again and nothing else is marked, the scan drops that mark and reports that nothing is left to
  send. `Forgets` is that condition, which involves only the bitmap, the cursor and the flag before the call.
  `FindAndSaveBlock` and `SaveComplete` are correct for every page outside it; inside it they send nothing, although the
  page is no longer marked. `ForgottenPage` is a concrete run.
- **Merged writes can be adjacent or overlap, and then the order in which they finish can matter.** The requests that
  are left have gaps between them if and only if the limit on buffers stops no merge
  (`third-party/qemu-orp/block.c:4441-4443`, `SpacedUnlessBlocked`). All are submitted together. The outcome is that of
  the sorted originals in every order of finishing if and only if no two requests that are left differ on a byte
  (`AnyOrderIffAgree`). For requests that are not empty they share no byte at all if and only if no stopped merge was
  of a request that starts before the end of the one before it (`ApartUnlessOverruns`); merely adjacent requests do no
  harm. `OrderMatters` is an input with two outcomes.
- **Flags stay behind when requests move.** A request that is kept after a merge moves down in the array, but its
  `flags` do not (`third-party/qemu-orp/block.c:4472-4477`), so it is submitted with the flags of another one. The flags
  are right for every choice of flags if and only if no request is kept after a merge (`FlagsFollowUnlessKept`).
  `FlagsLeftBehind` is an input.

## Model

| member | source | states |
|---|---|---|
| Xbzrle.UlebRoundTrip | third-party/qemu-orp/util/cutils.c:490-517 | decoding a one- or two-byte length gives back the number and the width that were encoded |
| Xbzrle.RunEnd | third-party/qemu-orp/xbzrle.c:43-63 | the end of the maximal run of equal (or of different) bytes |
| Xbzrle.ZeroByteTest | third-party/qemu-orp/xbzrle.c:96-101 | on a word put together from eight bytes the subtract-and-mask test is non-zero exactly when one of the bytes is zero |
| Xbzrle.XorOfWords | third-party/qemu-orp/xbzrle.c:98-100 | the bytes of the xor of two words are the xors of their bytes |
| Xbzrle.WordTest | third-party/qemu-orp/xbzrle.c:98-101 | the mask test on the xor of two loaded words says whether the buffers agree on one of the eight bytes |
| Xbzrle.SameWord | third-party/qemu-orp/xbzrle.c:53-54 | two loaded words are equal exactly if their eight bytes are |
| Xbzrle.SkipSame | third-party/qemu-orp/xbzrle.c:43-64 | byte steps, word steps and byte steps together find exactly the end of the unchanged run |
| Xbzrle.SkipChanged | third-party/qemu-orp/xbzrle.c:85-113 | branching on the mask test, word steps and byte steps find exactly the end of the changed run, which may lie inside a word |
| Xbzrle.EmitRound | third-party/qemu-orp/xbzrle.c:76-122 | one round of output is both lengths and the changed bytes, and overflow is reported exactly when they do not fit |
| Xbzrle.EncodeBuffer | third-party/qemu-orp/xbzrle.c:26-126 | returns -1 exactly when the room the encoder insists on is missing, 0 only for equal pages, and otherwise leaves the reference delta in the buffer |
| Xbzrle.RoundTrip | third-party/qemu-orp/xbzrle.c:26-176 | decoding a delta over the old page gives the new page, for all pairs of pages |
| Xbzrle.DecodeBuffer | third-party/qemu-orp/xbzrle.c:128-176 | the in-place decoder rejects exactly the inputs the reference decoder rejects and otherwise leaves its result, for every input |
| Endian.BigEndianDigit | third-party/qemu-orp/qemu-file.c:496-514 | byte i of a number on the wire is the i-th base-256 digit from the top |
| Wire.FlagsDoNotCollide | third-party/qemu-orp/arch_init.c:307-312 | the header word, which is the page offset with CONTINUE and the flag or-ed in, is their sum |
| Wire.FlagsOf | third-party/qemu-orp/arch_init.c:1058-1059 | masking the low bits out of a word gives what is below the page size |
| Wire.HeaderWordParts | third-party/qemu-orp/arch_init.c:307-322 | page number, CONTINUE bit and flag can be read back from a header word |
| Wire.FindBlock | third-party/qemu-orp/arch_init.c:1021-1024 | a name is resolved to a block of that name, or to none if there is no such block |
| Wire.Locate | third-party/qemu-orp/arch_init.c:1000-1028 | where a header leaves the reader, and that a named block exists |
| Wire.LocateBack | third-party/qemu-orp/arch_init.c:1000-1028 | a record is resolved to the sender's block, for CONTINUE records because the remembered block is the one last sent |
| Wire.ReadBodyBack | third-party/qemu-orp/arch_init.c:965-998 | zero, full and delta bodies are read back as they were written |
| Wire.ReadItemBack | third-party/qemu-orp/arch_init.c:1052-1143 | a whole record is read back as the record that was written |
| Wire.CheckBlocksBack | third-party/qemu-orp/arch_init.c:833-839 | the list of blocks sent at setup passes the receiver's comparison |
| Wire.RamLoad | third-party/qemu-orp/arch_init.c:1041-1153 | the loop of ram_load computes the reference reader, rejecting what it rejects |
| Wire.LoadRecords | third-party/qemu-orp/arch_init.c:1041-1153 | loading the bytes of records has the effect of applying the records in order |
| Wire.LoadSetup | third-party/qemu-orp/arch_init.c:833-846 | the setup section loads and changes nothing |
| Wire.StreamRoundTrip | third-party/qemu-orp/arch_init.c:1041-1153 | loading a whole stream of sections gives what applying its records gives |
| Bitmap.DirtyClear | third-party/qemu-orp/arch_init.c:432-435 | taking one mark off a RAM page lowers the count of marked RAM pages by one |
| Bitmap.DirtyAll | third-party/qemu-orp/arch_init.c:813-827 | with all of RAM marked the count is the number of pages of all blocks |
| Bitmap.SyncWord | third-party/qemu-orp/arch_init.c:464-471 | one word of the log is or-ed into the bitmap and cleared, and the number of new marks is added |
| Bitmap.SyncWords | third-party/qemu-orp/arch_init.c:459-472 | the word loop moves exactly the words of the range |
| Bitmap.SyncPages | third-party/qemu-orp/arch_init.c:474-483 | the page loop moves exactly the pages of the range, with the same effect as the word loop on the same range |
| Bitmap.SyncRange | third-party/qemu-orp/arch_init.c:452-485 | by either path no mark is lost or invented, the range is gone from the log and the counter again equals the number of marked RAM pages |
| Bitmap.FindNextBit | third-party/qemu-orp/arch_init.c:429 | the first set bit in the range, or its end |
| Migration.Source.CacheInsert | third-party/qemu-orp/page_cache.c:154-181 | the slot of the page is replaced, or the cache is unchanged when no memory can be had for an empty slot |
| Migration.Source.CacheMiss | third-party/qemu-orp/arch_init.c:361-373 | after a miss the cache holds exactly what is about to be sent in full, except in the last stage |
| Migration.Source.SendDelta | third-party/qemu-orp/arch_init.c:398-411 | sending a delta brings the destination's copy to the new page and keeps cache and destination equal |
| Migration.Source.SaveXbzrlePage | third-party/qemu-orp/arch_init.c:354-413 | through miss, hit, unmodified and overflow, with the guest storing between the two reads, the destination gets the page or the page is logged again, and the cache still agrees with the destination |
| Migration.Source.SaveZeroPage | third-party/qemu-orp/arch_init.c:600-609 | a zero page is sent and put into the cache, so the cache is never stale |
| Migration.Source.SaveFullPage | third-party/qemu-orp/arch_init.c:621-631 | a full page is sent from the cached copy or from memory, and cache and destination agree afterwards |
| Migration.Source.SavePage | third-party/qemu-orp/arch_init.c:569-636 | whatever kind of record is sent, the destination has the page or it is logged again, no other page changes, and the cache agrees with the destination |
| Migration.Source.FindAndReset | third-party/qemu-orp/arch_init.c:416-437 | the next marked page of the block loses its mark and the counter follows; in the first pass the page after the cursor is taken without looking and is always marked |
| Migration.Source.NextBlock | third-party/qemu-orp/arch_init.c:663-670 | at the end of a block the scan goes on to the next, and from the last one to the first, which ends the first pass |
| Migration.Source.CameRound | third-party/qemu-orp/arch_init.c:658-662 | a completed round leaves no page marked, and only in the situation `Forgets` has a mark been dropped unsent |
| Migration.Source.ScanStep | third-party/qemu-orp/arch_init.c:656-680 | one turn of the loop keeps the state of the scan, or stops with a page sent or nothing marked, and makes progress |
| Migration.Source.ScanLoop | third-party/qemu-orp/arch_init.c:656-680 | the loop ends and sends a page or finds nothing marked |
| Migration.Source.FindAndSaveBlock | third-party/qemu-orp/arch_init.c:645-685 | every page covered before (at the destination, marked or logged) is covered after, for every guest; the one exception is the last page of RAM exactly when `Forgets` holds before the call, and then nothing is sent |
| Migration.Source.BitmapSync | third-party/qemu-orp/arch_init.c:490-515 | all blocks together: bitmap and log are merged and the log is empty |
| Migration.Source.MarkEverything | third-party/qemu-orp/arch_init.c:813-827 | at setup all of RAM is marked and the counter is right |
| Migration.Source.SaveSetup | third-party/qemu-orp/arch_init.c:769-849 | setup establishes the invariant with all of RAM marked and the log empty |
| Migration.Source.GuestRuns | third-party/qemu-orp/arch_init.c:851-963 | memory changes by exactly the stores the schedule has for this moment, and every page stored to is logged |
| Migration.Source.GuestTurn | third-party/qemu-orp/arch_init.c:851-963 | any stores of the guest at any moment between two scans keep the invariant and keep every covered page covered, because a store logs its page |
| Migration.Source.SaveIterate | third-party/qemu-orp/arch_init.c:851-918 | any number of scans, with the guest storing before each of them and within them, keeps every page covered, except one that a recorded scan forgot; afterwards nothing is marked or the dirty count has fallen by the whole budget |
| Migration.Source.SavePending | third-party/qemu-orp/arch_init.c:950-963 | the log is merged exactly if fewer bytes than asked for are left, the answer is the size of all marked pages after that, and every page stays covered |
| Migration.Source.MergeBeforeLast | third-party/qemu-orp/arch_init.c:920-923 | the last sync empties the log and keeps every page covered |
| Migration.Source.FlushAll | third-party/qemu-orp/arch_init.c:928-939 | the final loop ends, by the count of marked pages, with no page marked |
| Migration.Source.SaveComplete | third-party/qemu-orp/arch_init.c:920-948 | with the guest stopped every covered page is at the destination in the end, except the last page of RAM exactly when `Forgets` holds of the merged bitmap at the start; then the destination is unchanged, so that page is right if and only if it was right before |
| Migration.Source.Delivered | third-party/qemu-orp/arch_init.c:1041-1153 | what the receiver loads from the bytes sent is the destination the sender's invariant speaks about |
| Migration.Source.Migrate | third-party/qemu-orp/arch_init.c:769-948 | the guest stores at will before, between and within pending and iterate calls and up to its stop; over every such schedule loading the stream gives a destination that equals source RAM page for page, unless a scan forgot the last page |
| Migration.ForgottenPage | third-party/qemu-orp/arch_init.c:416-437 | a concrete run on two pages of RAM: the last stage sends nothing, and loading the bytes sent gives a destination whose second page, which is RAM, differs from the source |
| PageTree.FindLoop | third-party/qemu-orp/exec.c:283-297 | the lookup loop arrives at the section number the recursive reading of the tree gives |
| PageTree.FindSame | third-party/qemu-orp/exec.c:283-297 | what an entry leads to depends on the nodes of its own place in the tree only |
| PageTree.SlotReplaced | third-party/qemu-orp/exec.c:198-208 | replacing one entry and the nodes below it affects the pages of that slot only |
| PageTree.WholeSlot | third-party/qemu-orp/exec.c:199-203 | a leaf over a whole slot maps exactly its pages |
| PageTree.PartSet | third-party/qemu-orp/exec.c:204-206 | what the recursive call has set below an entry is what the node leads to afterwards |
| PageTree.NodesAddUp | third-party/qemu-orp/exec.c:176-209 | in one node only the first and the last entry of a range can need new nodes below them |
| PageMap.PhysPageMap.Reserve | third-party/qemu-orp/exec.c:152-159 | there is room for the nodes asked for |
| PageMap.PhysPageMap.NewNode | third-party/qemu-orp/exec.c:161-174 | given room the assertions hold, and the new node leads nowhere |
| PageMap.PhysPageMap.SetSlot | third-party/qemu-orp/exec.c:198-208 | one turn of the loop maps exactly the part of the range in the slot, with a bound on new nodes |
| PageMap.PhysPageMap.SetSlots | third-party/qemu-orp/exec.c:196-208 | the loop maps exactly the part of the range in the node and hands back the rest |
| PageMap.PhysPageMap.SetLevel | third-party/qemu-orp/exec.c:176-209 | the same from an entry, which gets its node if it had none |
| PageMap.PhysPageMap.PhysPageSet | third-party/qemu-orp/exec.c:211-219 | maps exactly the pages of a vacant range, with at most 2 * P_L2_LEVELS - 1 new nodes, so that the reserved 3 * P_L2_LEVELS are enough and the array does not move meanwhile |
| Compaction.FindDigits | third-party/qemu-orp/exec.c:283-297 | a lookup depends on the digits below its level only |
| Compaction.OneChild | third-party/qemu-orp/exec.c:255-271 | leading past a node with one child keeps mapped pages as they are and shows other pages what some page of the node led to |
| Compaction.TightSame | third-party/qemu-orp/exec.c:255-271 | whether anything is left to compact below an entry depends on the nodes of its place only |
| PageMap.PhysPageMap.Compact | third-party/qemu-orp/exec.c:224-272 | compacting an entry keeps every mapped page; a page without section may take on the section of another page of the same place; afterwards no entry below leads to a node with a single child that the skip field has room to join |
| PageMap.PhysPageMap.CompactAll | third-party/qemu-orp/exec.c:274-281 | the same for the whole tree: nothing is left to compact |
| Dispatch.CompactedLookup | third-party/qemu-orp/exec.c:224-305 | because every mapped section has all its pages mapped and the range is checked at the end, lookup of every address is the same before and after compaction |
| Dispatch.AddressSpaceDispatch.constructor | third-party/qemu-orp/exec.c:1905-1923 | after mem_begin there are the four fixed sections and every address is unassigned |
| Dispatch.AddressSpaceDispatch.PhysPageFind | third-party/qemu-orp/exec.c:283-305 | lookup with the range check, on the plain and on the compacted tree |
| Dispatch.AddressSpaceDispatch.LookupRegion | third-party/qemu-orp/exec.c:313-326 | with subpage resolution, one table step |
| Dispatch.AddressSpaceDispatch.SubpageRegister | third-party/qemu-orp/exec.c:1834-1852 | fills exactly the places asked for, or refuses places outside the page |
| Dispatch.AddressSpaceDispatch.RegisterSubpage | third-party/qemu-orp/exec.c:964-992 | a free piece inside a page is registered, on a page that is unassigned or already has a table, and no other address changes; a number is used for the piece, and one more exactly if the page had no table |
| Dispatch.AddressSpaceDispatch.RegisterMultipage | third-party/qemu-orp/exec.c:995-1005 | a free piece of whole pages is registered and no other address changes |
| Dispatch.LeftOnPage | third-party/qemu-orp/exec.c:1014-1016 | the 64-bit difference to the next page boundary is right on the last page too, where the boundary wraps to 0 |
| Dispatch.AddressSpaceDispatch.AddHead | third-party/qemu-orp/exec.c:1007-1022 | the part up to the first page boundary is added, with exactly the section numbers it needs |
| Dispatch.AddressSpaceDispatch.AddNext | third-party/qemu-orp/exec.c:1023-1037 | one turn of the loop adds the next piece with exactly the section numbers it needs and never takes the unaligned branch |
| Dispatch.AddressSpaceDispatch.MemAdd | third-party/qemu-orp/exec.c:1007-1038 | every address of the section leads to a piece with the same region and the same place in the region, no other address changes, exactly one section is used for each piece and for each new table, and the loop ends; the assertion on the number of sections holds whenever that many are left |
| Dispatch.AddressSpaceDispatch.MemCommit | third-party/qemu-orp/exec.c:1925-1939 | compaction changes no lookup and leaves nothing to compact |
| Dispatch.Update | third-party/qemu-orp/exec.c:1905-1939 | for every flat list whose sections fit the section table: each address leads to a piece of the section that contains it, and to the unassigned section if none does, and the number of sections is the four fixed ones, one for each piece and one for each page that is covered in part |
| Requests.PaddedWrite | third-party/qemu-orp/block.c:3309-3379 | writing the bytes read before, the data and the bytes read behind is writing the data alone, while the buffers still are what the device holds |
| Requests.BuffersSurvive | third-party/qemu-orp/block.c:2303-2316 | the write of a request that does not conflict leaves the buffers of another valid |
| Requests.OverlapsIffShared | third-party/qemu-orp/block.c:2352-2364 | non-empty ranges overlap exactly if they share a byte |
| Tracking.PreparedRange | third-party/qemu-orp/block.c:2282-2316 | by begin and mark the overlap range is exactly the padded range of a write or the clusters of a copy on read, and a request is serialising exactly if it is a copy on read or an unaligned write |
| Tracking.MarkedAgain | third-party/qemu-orp/block.c:3346 | marking again before the tail is read changes nothing |
| Tracking.NeverBlocks | third-party/qemu-orp/block.c:2366-2408 | a request past its first wait finds nothing to wait for |
| Tracking.Device.Scan | third-party/qemu-orp/block.c:2366-2408 | the first listed request that conflicts and does not itself wait, or none, also through the shortcut on serialising_in_flight |
| Tracking.Device.Submit | third-party/qemu-orp/block.c:3293-3348 | a request is accepted exactly if it lies within the device, of any length; begin, mark and first wait keep the invariant: no two requests past their wait conflict, and one waits only for a request past its wait |
| Tracking.Device.Wake | third-party/qemu-orp/block.c:2396-2401 | a request whose blocker has ended goes on, or waits for another active one |
| Tracking.Device.Drive | third-party/qemu-orp/block.c:2941-3024 | a write changes exactly the bytes the guest asked for and appends to the log, a read gets exactly those bytes, and a copy-on-read write-back changes nothing |
| Tracking.Device.Resume | third-party/qemu-orp/block.c:2941-3391 | a failed call or the last one ends the request, and otherwise the next call follows: tail read, write, plain read or copy as the first answer says; later waits never block and the assertions on `waited` and the overlap range hold |
| Tracking.Device.EndRequest | third-party/qemu-orp/block.c:2269-2277 | only a request that has done what it was for, or has failed, leaves the list; the count follows and the invariant stays |
| Tracking.EndedIsFinished | third-party/qemu-orp/block.c:3293-3391 | a request that has ended without a failed call has done its work: a write is on the log exactly once with its own offset and data, a read got bytes the device held at a moment since it was submitted, a copy on read has written back unless all was present |
| Tracking.Device.SomeEnabled | third-party/qemu-orp/block.c:2366-2408 | while there are requests one of them can go on, because waits point to active or ended requests |
| Tracking.Device.Step | third-party/qemu-orp/block.c:2366-2408 | every step keeps the invariant and brings the requests nearer to their end |
| Tracking.Device.Drain | third-party/qemu-orp/block.c:2366-2408 | in whatever order requests go on, all of them end, and each has done its work unless a driver call failed |
| Tracking.Happen | third-party/qemu-orp/block.c:2269-2408 | each acceptable submission becomes a request with its own kind, range and data, and no other request appears |
| Tracking.Run | third-party/qemu-orp/block.c:2269-2408 | from a device of any length, after any sequence of submissions and steps: every acceptable submission has become a request, no two active requests conflict, waits have length one, the device holds exactly the completed writes applied one after the other, each once, with nothing changed beyond its end, and every request that has ended without a failed call has done its work |
| Tracking.SpliceWithin | third-party/qemu-orp/block.c:2579-2603 | writes that end within the device change nothing beyond its end |
| Iovec.PartHolds | third-party/qemu-orp/util/iov.c:298-322 | a part of a list holds the bytes asked for, up to the end of the list |
| Iovec.SplitCount | third-party/qemu-orp/util/iov.c:298-322 | taking a piece out of the middle of a list adds at most one buffer |
| Iovec.Concat | third-party/qemu-orp/util/iov.c:298-338 | the loop appends that part, also when more is asked for than there is, and its final assertion holds for every offset within the source |
| Multiwrite.MergedData | third-party/qemu-orp/block.c:4451-4469 | a merged request holds the first request with the second written over it |
| Multiwrite.MergedIsSized | third-party/qemu-orp/block.c:4445-4469 | it reaches as far as both, and its list is within the sum that the merge condition looks at |
| Multiwrite.MergeTwo | third-party/qemu-orp/block.c:4445-4469 | the merging branch builds that request |
| Multiwrite.MultiwriteMerge | third-party/qemu-orp/block.c:4421-4481 | the array starts with what is left of the sorted requests, all other fields stay in their slots, and every list made is recorded in exactly one slot |
| Multiwrite.MergeMeansSame | third-party/qemu-orp/block.c:4421-4481 | what is left, applied in order to any device, has the effect of the sorted originals in order |
| Multiwrite.SpacedUnlessBlocked | third-party/qemu-orp/block.c:4432-4443 | what is left is pairwise separated by gaps if and only if the IOV_MAX limit never stops a merge |
| Multiwrite.FewBuffersNeverBlock | third-party/qemu-orp/block.c:4441-4443 | a bound on the number of buffers under which the limit stops nothing |
| Multiwrite.ListsWithinLimit | third-party/qemu-orp/block.c:4441-4443 | no merged list is longer than IOV_MAX if none of the originals is |
| Multiwrite.OrderFreeIffAgree | third-party/qemu-orp/block.c:4529-4536 | any writes give the same device in every order of finishing if and only if no two of them differ on a byte |
| Multiwrite.AnyOrderIffAgree | third-party/qemu-orp/block.c:4421-4536 | what is left has the effect of the sorted originals in every order of finishing if and only if no two requests that are left differ on a byte |
| Multiwrite.ApartUnlessClashes | third-party/qemu-orp/block.c:4432-4443 | what is left is disjoint if and only if no request reaches into one that it is not merged with |
| Multiwrite.ApartUnlessOverruns | third-party/qemu-orp/block.c:4437-4443 | for requests that are not empty: if and only if the limit stops no merge of a request that starts before the end of the one before it |
| Multiwrite.OrderMatters | third-party/qemu-orp/block.c:4441-4443 | two writes of one sector in 512 buffers each are not merged, and their two orders of finishing give different devices |
| Multiwrite.AnyOrderUnlessBlocked | third-party/qemu-orp/block.c:4441-4443 | unless the limit stops a merge, what is left may finish in any order with the effect of the sorted originals |
| Multiwrite.StartsAre | third-party/qemu-orp/block.c:4432-4478 | each request that is left starts where the first of those merged into it does, which is the one in its slot or a later one |
| Multiwrite.FlagsFollowUnlessKept | third-party/qemu-orp/block.c:4472-4477 | each request that is left is submitted with its own flags, whatever the flags are, if and only if no request is kept after another has been merged |
| Multiwrite.FlagsLeftBehind | third-party/qemu-orp/block.c:4472-4477 | three requests of which the third is submitted with the flags of the second |
| Multiwrite.OneMoreResult | third-party/qemu-orp/block.c:4389-4391 | the recorded error stays the first failure among the results, or 0 while there is none |
| Multiwrite.MultiwriteCB.UserCb | third-party/qemu-orp/block.c:4370-4381 | every callback runs once with the common error and every recorded list is freed once |
| Multiwrite.MultiwriteCB.Complete | third-party/qemu-orp/block.c:4383-4398 | the error is the first negative result in order of completion, and 0 if and only if there is none; no callback runs before the last write has finished, and then all run with that error |
| Multiwrite.MultiwriteCB.CompleteAll | third-party/qemu-orp/block.c:4370-4398 | for all results in all orders every callback is called exactly once with the first failure, and every recorded list is freed once |
| Multiwrite.AioMultiwrite | third-party/qemu-orp/block.c:4497-4539 | without a medium every request gets -ENOMEDIUM and nothing else changes; otherwise exactly what is left of the sorted requests is submitted, each with the flags in its slot, and the completion record waits for that many results and knows the callbacks in the caller's order |
| ImageCommit.WriteUnseen | third-party/qemu-orp/block.c:2203-2213 | writing sectors the overlay has, even half, does not change what the guest reads |
| ImageCommit.EmptyUnseen | third-party/qemu-orp/block.c:2216-2222 | nor does emptying a committed overlay, even half |
| ImageCommit.Image.CommitRun | third-party/qemu-orp/block.c:2198-2214 | one turn keeps what the guest reads whatever fails, and on success the backing image has the run |
| ImageCommit.Image.Commit | third-party/qemu-orp/block.c:2134-2242 | the guest reads the same at every outcome, the backing image beyond the overlay stays, each refused case has its own error and changes nothing, and on success the backing image alone reads as the guest's view |
| KdumpFormat.GetNextPage | third-party/qemu-orp/dump.c:1002-1046 | every page of every block comes once, in order, with the bytes its block has at the addresses of its frame |
| KdumpFormat.PageWith | third-party/qemu-orp/dump.c:1002-1046 | every address of every block is on one of the pages, which has the memory of the block |
| KdumpFormat.BlockWith | third-party/qemu-orp/dump.c:1002-1046 | every page is one of a block, with the memory of the block |
| KdumpFormat.PagesIncrease | third-party/qemu-orp/dump.c:1002-1046 | frame numbers increase and end with the last block |
| KdumpFormat.FlushWindow | third-party/qemu-orp/dump.c:964-982 | writing the window at its place extends the bitmap in the file by that window |
| KdumpFormat.SetInWindow | third-party/qemu-orp/dump.c:984-991 | exactly the bit of the frame changes |
| Kdump.BitmapLengthIsWindows | third-party/qemu-orp/dump.c:1516-1518 | the length of a bitmap is exactly the windows up to the last frame |
| Kdump.DumpState.constructor | third-party/qemu-orp/dump.c:910-916 | the descriptor area starts right behind both bitmaps |
| Kdump.DumpState.WriteBuffer | third-party/qemu-orp/dump.c:686-705 | a piece is written to positions that were not written before |
| Kdump.DumpState.SetDumpBitmap | third-party/qemu-orp/dump.c:945-994 | both bitmaps and the window hold the frames so far with this one set or cleared, across any number of windows |
| Kdump.DumpState.WriteDumpBitmap | third-party/qemu-orp/dump.c:1048-1096 | both bitmaps in the file have exactly the dumpable frames set, and their number is right |
| Kdump.DumpState.WriteCache | third-party/qemu-orp/dump.c:1108-1138 | what has been given to a cache is in the file up to what it still holds, and after a sync all of it |
| Kdump.DumpState.WriteData | third-party/qemu-orp/dump.c:1250-1305 | a page is stored compressed if that works and is shorter, otherwise as it is |
| Kdump.DumpState.WriteDesc | third-party/qemu-orp/dump.c:1307-1316 | the descriptor gives offset, size and flags of the data just stored |
| Kdump.DumpState.WritePage | third-party/qemu-orp/dump.c:1229-1318 | zero pages get the shared descriptor and no data |
| Kdump.DumpState.WriteDumpPages | third-party/qemu-orp/dump.c:1175-1340 | descriptors and data are in the file in full, and bitmaps, descriptors and data never overlap |
| KdumpPages.RankIs | third-party/qemu-orp/dump.c:1048-1096 | the number of set bits below the frame of page k is k |
| KdumpPages.PageBack | third-party/qemu-orp/dump.c:1175-1340 | descriptor k leads to data that gives back page k |
| KdumpPages.ZeroesAreShared | third-party/qemu-orp/dump.c:1229-1237 | pages of zeroes add nothing to the page data |
| KdumpPages.StoredNoLonger | third-party/qemu-orp/dump.c:1250-1305 | no page is stored longer than it is, nor longer than the compressor makes it |
| KdumpPages.ReaderGetsPages | third-party/qemu-orp/dump.c:945-1340 | a reader gets exactly the pages, each with its contents |
| Kdump.DumpState.CreateVmcore | third-party/qemu-orp/dump.c:1342-1400 | if the dump succeeds, a reader using either bitmap finds for every address of every block the byte of guest memory, and no page for a frame that is in no block |
| EventNotify.NoLostWakeup | third-party/qemu-orp/async.c:119-136 | a loop asleep without limit and with its notifier clear has no live bottom half scheduled, unless a scheduler is between its store and the end of aio_notify |
| EventNotify.AioContext.TestStep | third-party/qemu-orp/async.c:119-124 | the early return on a bottom half already scheduled |
| EventNotify.AioContext.StoreStep | third-party/qemu-orp/async.c:125-134 | the store keeps the invariant |
| EventNotify.AioContext.LoadStep | third-party/qemu-orp/async.c:272-276 | a scheduler that sees `dispatching` set is done, and otherwise goes on to notify |
| EventNotify.AioContext.SetStep | third-party/qemu-orp/async.c:276-279 | the notifier is set |
| EventNotify.AioContext.TakeBack | third-party/qemu-orp/async.c:139-153 | cancel and delete by any thread keep the invariant |
| EventNotify.AioContext.Enter | third-party/qemu-orp/aio-posix.c:189-211 | a nested or outermost aio_poll saves `dispatching` |
| EventNotify.AioContext.Scan | third-party/qemu-orp/async.c:155-182 | the timeout is computed one bottom half at a time while others schedule |
| EventNotify.AioContext.Poll | third-party/qemu-orp/aio-posix.c:189-247 | every step up to the dispatch keeps the invariant; `dispatching` is off while a blocking poll is under way, and with the notifier set the poll returns whatever else happens |
| EventNotify.AioContext.Walk | third-party/qemu-orp/async.c:61-86 | a live scheduled bottom half is run, recorded and no longer scheduled; callbacks run with `dispatching` on |
| EventNotify.AioContext.Handle | third-party/qemu-orp/aio-posix.c:246-254 | the notifier may be cleared only here, and on return the saved value of `dispatching` is restored |
| EventNotify.Run | third-party/qemu-orp/async.c:119-136 | in every state of every interleaving of schedulers, deleters and nested polls no wake-up is lost, and between calls `dispatching` is what it was at first |
| EventNotify.StillServing | third-party/qemu-orp/aio-posix.c:189-254 | through every event a bottom half that was live at the poll is live, run or taken back, and what the walk has passed is run or taken back |
| EventNotify.Serve | third-party/qemu-orp/aio-posix.c:231-254 | a poll with its notifier set or a limited timeout comes to its handlers whatever other threads do, and by then every bottom half that was live has been run or taken back |
| EventNotify.ServeNested | third-party/qemu-orp/aio-posix.c:231-254 | the same guarantee at the handlers when callbacks start calls of their own |
| EventNotify.WakeUp | third-party/qemu-orp/async.c:272-279 | the scheduler that is about to notify a sleeping loop wakes it, and the loop runs every bottom half that was live, unless it is taken back before |
| EventNotify.Block | third-party/qemu-orp/async.c:155-182 | alone, a blocking call sleeps without limit exactly if no bottom half is live and no timer limits it |
| EventWalk.NothingFreedIsHeld | third-party/qemu-orp/async.c:61-105 | no walk, at any depth of nesting, holds on to a freed bottom half or handler |
| EventWalk.NextIs | third-party/qemu-orp/async.c:72 | behind an entry comes the next of the list, and behind the last none |
| EventWalk.AioContext.NewBh | third-party/qemu-orp/async.c:44-58 | a bottom half is put at the head of the list without disturbing a walk |
| EventWalk.AioContext.DeleteBh | third-party/qemu-orp/async.c:149-153 | deleting only marks |
| EventWalk.AioContext.BhStep | third-party/qemu-orp/async.c:69-84 | the entry looked at and the one behind it are not freed, a callback is run exactly for one that is scheduled and not deleted, and the walk goes on to the entry behind it |
| EventWalk.BhLooked | third-party/qemu-orp/async.c:69-84 | what a walk has looked at and what it has still to look at stay the list it found |
| EventWalk.AioContext.EndBhWalk | third-party/qemu-orp/async.c:86-89 | only the outermost walk goes on to sweep |
| EventWalk.AioContext.SweepStep | third-party/qemu-orp/async.c:92-100 | one turn of the sweep; undisturbed it ends with no deleted entry in the list |
| EventWalk.AioContext.Sweep | third-party/qemu-orp/async.c:88-102 | without concurrent deleters just the deleted bottom halves are taken off |
| EventWalk.AioContext.AddFd | third-party/qemu-orp/aio-posix.c:74-81 | a handler is put at the head of the list |
| EventWalk.AioContext.DeleteFd | third-party/qemu-orp/aio-posix.c:57-72 | a handler is marked while a walk uses handlers and freed at once otherwise, and no walk loses its place |
| EventWalk.AioContext.FdStep | third-party/qemu-orp/aio-posix.c:145-170 | a callback is run exactly for a handler that is ready, not deleted and not freed |
| EventWalk.AioContext.FdReturn | third-party/qemu-orp/aio-posix.c:158-175 | the write callback follows only if the read callback has not deleted the handler |
| EventWalk.AioContext.Leave | third-party/qemu-orp/aio-posix.c:172-180 | the walk goes on to the handler behind, fetched before the count drops, and a deleted one is freed exactly when no walk uses handlers |
| EventWalk.LeftBehind | third-party/qemu-orp/aio-posix.c:172-180 | the same when a walk leaves a handler, and for the calls below it even if that handler is freed |
| EventWalk.AioContext.ProceedBh | third-party/qemu-orp/async.c:61-89 | every look at a bottom half is recorded with whether it was scheduled and not deleted and whether it was called |
| EventWalk.AioContext.ProceedFd | third-party/qemu-orp/aio-posix.c:145-170 | every look at a handler is recorded with whether it was ready and not deleted and whether it was called |
| EventWalk.Run | third-party/qemu-orp/aio-posix.c:127-187 | every state of every run of nested dispatches, additions and deletions is safe, and every call that has returned has looked at every entry of both lists it found, in order, and called just those that were to be called |
| Tlb.CoveredIsFlushed | third-party/qemu-orp/cputlb.c:93-102 | an address in a large page that the flush address and mask cover triggers the full flush |
| Tlb.WidenMask | third-party/qemu-orp/cputlb.c:237-240 | the loop ends with the longest mask of ones under which the addresses agree and that is within both masks |
| Tlb.AddLargePage | third-party/qemu-orp/cputlb.c:224-243 | the widened region covers the new page and all that was covered before, and no narrower region would |
| Tlb.FlushEntryFlushes | third-party/qemu-orp/cputlb.c:72-82 | the entry is no longer used for the page, and is otherwise as good as before |
| Tlb.OtherSlots | third-party/qemu-orp/cputlb.c:107-111 | in the main table only one slot can be used for a page |
| Tlb.CpuTlb.Flush | third-party/qemu-orp/cputlb.c:51-70 | no entry is used for any page, and no large page is remembered |
| Tlb.CpuTlb.FlushPage | third-party/qemu-orp/cputlb.c:84-122 | no entry of any mode, main or victim, is used for the page or for any page of a large page entered since the last full flush that contains the address; if the flush region covers the address no entry is used for any page and no large page is remembered, and otherwise the remembered ones stay and only entries used for the page change |
| Tlb.CpuTlb.SetPage | third-party/qemu-orp/cputlb.c:248-328 | the old entry of the slot goes to the victim table, the new one is in its place and serves just the accesses allowed, a large page is remembered, and any other page that no entry was used for stays so |
| Tlb.CpuTlb.VictimHit | third-party/qemu-orp/softmmu_template.h:119-142 | an entry found in the victim table changes places with that of its own slot and nothing else changes; nothing flushed comes back |
| Tlb.Run | third-party/qemu-orp/cputlb.c:51-122 | after any history of entries, flushes, page flushes and victim hits and a flush of the page of an address, no entry is used for the address, nor for any page of a large page with the address that was entered anywhere in the history, unless that page itself was entered later |

## Left out

- Migration.Source.Migrate: `ram_list.version` and the capabilities do not change during a migration, and there are no RDMA hooks; both sides have the same list of blocks.
- Migration.Source.SaveFullPage: a page queued by qemu_put_buffer_async is read before the next record, at one moment; the guest may store before and after.
- The guest's store and the setting of its log bit are one step of the model.
- Migration.Source.BitmapSync: stores of the guest while the log is being merged, statistics, auto-converge throttling and clocks.
- Wire.RamLoad: a record whose page number is outside its block makes the load fail, and RAM_SAVE_FLAG_HOOK is an unknown flag, as without hooks.
- Wire.Locate: a page number outside its block makes the load fail; the code would use it as an offset from the block's memory.
- Bitmap.SyncWord: words are slices of a sequence of bits.
- PageMap.PhysPageMap.PhysPageSet: ranges are not empty, as in all calls of phys_page_set.
- Dispatch.AddressSpaceDispatch.MemAdd: sections are not empty and do not overlap those already added, as memory.c hands them out; section numbers are left for the pieces and the new tables, which the code asserts; TARGET_PAGE_BITS is 12.
- Dispatch.Update: freeing of the previous dispatch and reference counts of regions.
- Tracking.Device.Submit: requests with BDRV_REQ_ZERO_WRITE, throttling, missing or read-only media, write notifiers, and growing devices; what the driver does beyond the end of the device is to keep zeros there.
- Multiwrite.AioMultiwrite: of bdrv_co_aio_rw_vector only what it is handed and what it completes with.
- ImageCommit.Image.Commit: reopening the backing image for writing and back, and flushing; growing the backing image fills with zeroes.
- Kdump.DumpState.CreateVmcore: headers and notes, which lie before the first bitmap; file offsets fit in 64 bits; compressors are invertible functions that may fail.
- EventNotify.Serve: callbacks return and start no calls of their own; EventNotify.ServeNested allows both but does not say that the call comes to its handlers.
- EventNotify.Run: idle bottom halves, which only promise a poll every 10 ms, and the path through the GLib main loop.
- EventWalk.Run: the fields of handlers other than their place in the list, `deleted` and `revents`.
- Tlb.CpuTlb.SetPage: the I/O TLB and addends, and the steps that set or clear TLB_NOTDIRTY in existing entries.
- Block drivers, throttling, the ELF dump path, address translation and access, watchpoints, and monitor commands.
