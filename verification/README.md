# Verification of the migration, block, CPU and utility layers

A Dafny model of the parts of this repository that carry the hardest
promises, with proofs of those promises. Most of it is the vendored copy of
QEMU 0.14: live RAM migration, live block migration with its dirty bitmap, the
block layer's request transformations, AES and CBC, the protocol that pauses
virtual CPUs and runs work on their threads, the rate-limited buffered stream,
calendar arithmetic and the monochrome cursor codec. The configuration store
in `cxx_utils` is the author's own.

`dafny verify dfyconfig.toml` checks everything.

## How it is built

Each component comes in two layers. A *state machine* or a set of functions on
values says what may happen and what it means; the theorems over all inputs,
all runs and all interleavings are lemmas about that layer. The *code* layer
holds classes and methods in the form of the C and C++ sources (loops, fields
updated in place, packed words, linked lists, arrays), and every method is
proved to compute a function of the value layer, to be a run of the state
machine, or to have the effect that its contract states outright.

| files | component |
|---|---|
| RamModel, RamStream, RamMigration | pages and blocks, the byte stream and its decoder, sender, guest and receiver over whole runs |
| RamTearing | guest stores and changes of the block list inside `ram_save_block` |
| RamSaver, RamReceiver, RamDriver | the code of `ram_save_live` and `ram_load`, and a migration from beginning to end |
| BlockMigration, BlockMigrationExact | disks, reads in flight, queue and stream over whole runs; the exact conditions |
| BlockMigrationLimits, BlockMigrationRace | runs that fail without the assumptions; two reads of one chunk, and writes from before the tracking |
| BlockStream, BlockSaver, BlockReceiver, BlockDriver | the bytes of the block stream; the code of `block_save_live` and `block_load`; a migration from beginning to end |
| DirtyBitmap, BlockDevice, BlockCommit | packed dirty bits with a cached count, byte access over sectors, commit of an overlay |
| IoVector, MultiwriteMerge, MultiwriteCompletion, MultiwriteDisk | I/O vectors, merging of write requests, the completion counter, and what the disk then holds |
| AesField, AesCipher, AesTables, AesBlock, AesCbc | field and column arithmetic, the two ciphers, tables on words, the block code, chaining |
| Vcpus, VcpuCode, VcpuRefinement | pausing and queued work as a state machine; the code of `cpus.c`; that the code takes the machine's steps |
| BufferedFile, Calendar, ConfigStore, MonoCursor | the self-contained algorithms |
| Basics, Bits | shared arithmetic; machine words as numbers with bit operations |

## Where the code does not do what one expects

These are results, stated in the table below.

- `multiwrite_merge` truncates the accumulated request where a later one
  begins and appends the later one whole. A shorter later request therefore
  loses the tail of the earlier one, and zeros that fill the next approved gap
  can be laid over it. The merge preserves meaning exactly when no byte is cut
  off or zeroed that nothing later rewrites; it does whenever no joined request
  ends before the one it joins.
- `bdrv_set_dirty_tracking(bs, 1)` on a tracked device zeroes the count and
  keeps the bits; the count is right afterwards exactly when no bit was set.
- The dirty bitmap and the bitmap of reads in flight are allocated in bytes and
  accessed in 64-bit words; the accesses stay inside exactly when the number of
  bytes is a multiple of eight. A write of no sectors marks a chunk unless its
  sector begins one other than the first.
- CBC decryption of a partial last block leaves the decrypted block as `ivec`,
  encryption the encrypted one; they agree exactly on whole blocks or at a
  fixed point of decryption.
- Block migration does not keep a bulk read and a dirty read of one chunk
  apart. If no chunk is read while a read of it is in flight, the destination
  ends equal in every completion order; once two are in flight, it can end
  different. If the flush of stage 3 leaves blocks in the queue, it ends equal
  exactly when each is of a dirty chunk or has arrived already.
- A guest write that is in flight when tracking begins is never marked. If such
  writes complete before their chunks are read, the destination ends equal; as
  long as one is in flight, it can end different.
- A read that fails or is refused is an error of the file. From then on no
  block gets on the stream, although the pass of stage 3 goes on until the
  devices accept; stage 3 completes exactly when there is no failed read and
  the devices accept as many reads as there are dirty chunks.
- `bdrv_commit` on a read-only backing file returns the result of the last
  reopening, also when the copy failed, which it does exactly when some
  allocated sector cannot be read, written or lies outside the backing file.
  If the file cannot be reopened for writing, the read-only reopening that
  follows sets `keep_read_only`, and every later commit is refused.
- The comment on `bdrv_aio_multiwrite` says that after an error some callbacks
  may be called. The code calls none when it returns -1, and returns 0 after a
  late submission failure, with the error in every callback.
- A put on the buffered stream whose flush fails sends its own bytes ahead of
  the waiting ones and can report success. Some backend brings this about
  exactly when there is no error yet, bytes are waiting, the put brings bytes
  and the limit is not exceeded. A tick after an error frees the file, and
  every later call uses freed memory; some backend brings this about exactly
  when a call follows a tick that follows an error or the first operation that
  has to offer bytes.
- `mktimegm` is a day out for common years before year 0, far outside the
  range in which its `int` product is defined.
- The configuration reader loses the end of a last line without a newline,
  unless that line is a whole number of full reads; it leaves a blank at an end
  where a tab shields a space; it gives no section prefix to pairs without
  `=`; and a second load starts in the last section of the first.

## Model

| member | source | states |
|---|---|---|
| RamMigration.MigrationCopiesMemory | louluosrc/qemu-kvm-0.14.0/arch_init.c:249-334 | For every run of stage 1, any number of sends, section ends and synchronisations interleaved with guest writes, then stage 3 with the guest stopped: replaying the bytes sent through ram_load succeeds and every page of the receiver equals the sender's |
| RamMigration.CleanRunCopiesMemory | louluosrc/qemu-kvm-0.14.0/arch_init.c:299-329 | The same for any schedule at all that ends a section with no dirty page and an empty dirty log |
| RamTearing.TornRunCopiesMemory | louluosrc/qemu-kvm-0.14.0/arch_init.c:123-173 | The same when guest stores fall between the clearing of a page's flag and its copying, so that what is sent may be torn in any way, and when accesses move blocks to the front of the list at any time |
| RamTearing.SendIsPickAndPut | louluosrc/qemu-kvm-0.14.0/arch_init.c:124-156 | ram_save_block as one step is the picking of a page and its putting on the stream with nothing in between |
| RamTearing.ReorderTracks | louluosrc/qemu-kvm-0.14.0/exec.c:2953-2969 | Moving a block to the front of the sender's list keeps the two machines in step |
| RamMigration.SomeMigration | louluosrc/qemu-kvm-0.14.0/arch_init.c:249-334 | A concrete run with a write behind the sender's back that meets every assumption of both copy theorems: it ends a section with no dirty page and an empty log |
| RamMigration.StepTracks | louluosrc/qemu-kvm-0.14.0/arch_init.c:111-173 | Every step of sender, guest or synchronisation keeps the invariant: each page is dirty or logged, or its replayed copy equals the source; all records so far are accepted by the receiver |
| RamMigration.RunTracks | louluosrc/qemu-kvm-0.14.0/arch_init.c:249-334 | The invariant holds after every run |
| RamMigration.ContinueNamesTheSameBlock | louluosrc/qemu-kvm-0.14.0/arch_init.c:126-152 | In every reachable state, a record carrying CONTINUE is sent only when the block the receiver remembers has the id of the block the sender means |
| RamMigration.ScanIsCyclic | louluosrc/qemu-kvm-0.14.0/arch_init.c:123-167 | The scan meets the pages in cyclic order: the page found is dirty and all pages nearer to the start are clean; nothing found means nothing dirty within reach |
| RamMigration.SendClearsOne | louluosrc/qemu-kvm-0.14.0/arch_init.c:123-173 | A page is sent exactly when some page is dirty; exactly that page stops being dirty, so the count of dirty pages drops by one |
| RamMigration.SendAllDrains | louluosrc/qemu-kvm-0.14.0/arch_init.c:319-327 | The final loop terminates by the dirty count, leaves no page dirty, and leaves memory alone |
| RamMigration.FirstPageFound | louluosrc/qemu-kvm-0.14.0/arch_init.c:118-121 | With last_block still null, the first page being dirty is what the first scan returns, so last_block is not read |
| RamMigration.SortKeeps | louluosrc/qemu-kvm-0.14.0/arch_init.c:216-247 | sort_ram_list yields the same blocks in order of offset, with their validity |
| RamMigration.StartedInStep | louluosrc/qemu-kvm-0.14.0/arch_init.c:266-294 | Stage 1 leaves every page of every block dirty and a header the receiver accepts |
| RamStream.RecordReadBack | louluosrc/qemu-kvm-0.14.0/arch_init.c:375-453 | Decoding the bytes of any valid record does to any receiver exactly what the record means, errors included, and leaves the rest of the stream |
| RamStream.BeByte | louluosrc/qemu-kvm-0.14.0/savevm.c:645-649 | Byte i of a big-endian number is its digit of that place |
| RamStream.RecordLayout | louluosrc/qemu-kvm-0.14.0/arch_init.c:132-152 | The bytes of page records and end mark, field by field, with the flag values written out |
| RamStream.HeaderLayout | louluosrc/qemu-kvm-0.14.0/arch_init.c:287-293 | The header is the sum of all lengths with flag 4, then name and length of every block |
| RamStream.EntryReadBack | louluosrc/qemu-kvm-0.14.0/arch_init.c:387-417 | One entry of the list: EINVAL if the receiver has no block of that name and length, else the running total loses the length, wrapping like a 64-bit counter when the length exceeds it |
| RamStream.ApplyFails | louluosrc/qemu-kvm-0.14.0/arch_init.c:420-447 | A page record stores exactly its page in the named or remembered block; for an unknown or missing block a short record is EINVAL and a whole page a write through a null pointer |
| RamStream.HeaderAcceptedIff | louluosrc/qemu-kvm-0.14.0/arch_init.c:387-417 | A header is accepted exactly when every block it lists is one of the receiver's with the same length, and is EINVAL otherwise |
| RamStream.EntriesReadBack | louluosrc/qemu-kvm-0.14.0/arch_init.c:387-417 | The id/length list is consumed exactly and the running total reaches zero with its last entry; the load fails with EINVAL exactly when some entry does not match a block of the receiver |
| RamStream.SectionReadBack | louluosrc/qemu-kvm-0.14.0/arch_init.c:375-455 | The loop ends exactly at the first end mark, for every list of valid records |
| RamStream.StreamReadBack | louluosrc/qemu-kvm-0.14.0/arch_init.c:366-456 | Section after section, the whole byte stream has the effect of its records |
| RamModel.RankOfNext | louluosrc/qemu-kvm-0.14.0/arch_init.c:157-165 | The successor of a page is the next in one cyclic order of all pages of all blocks |
| RamSaver.IsDupPage | louluosrc/qemu-kvm-0.14.0/arch_init.c:93-106 | True exactly when every byte of the page is the given one |
| RamSaver.Saver.Scan | louluosrc/qemu-kvm-0.14.0/arch_init.c:118-167 | Terminates; with last_block set, a page found is dirty and every page from the last position up to it, in cyclic order, is clean, and when none is found no page is dirty and the position is the old one; the first call finds the first page |
| RamSaver.Saver.SaveBlock | louluosrc/qemu-kvm-0.14.0/arch_init.c:111-173 | Sends the first dirty page in cyclic order from the last position and no other: exactly it stops being dirty and its record is appended; the value returned is 1 for a page that repeats one byte, the page size for any other, and 0 exactly when no page was dirty, which leaves position and stream alone |
| RamSaver.PageRecordBytes | louluosrc/qemu-kvm-0.14.0/arch_init.c:123-152 | The bytes sent for a page: its offset with CONTINUE exactly when the page sent last is of the same block, its name exactly otherwise, and one byte with flag 2 exactly when all its bytes are equal, else the page with flag 8 |
| RamSaver.Saver.SyncDirtyBitmap | louluosrc/qemu-kvm-0.14.0/arch_init.c:261-264 | Every page in the log gets all flags, no other page changes, and the log is empty |
| RamSaver.Saver.PutPage | louluosrc/qemu-kvm-0.14.0/arch_init.c:132-152 | Appends the encoding of the page's record, short when all bytes are equal, without the id when the block is the last one |
| RamSaver.Saver.MaskDirtyRange | louluosrc/qemu-kvm-0.14.0/cpu-all.h:936-949 | Clears the flag on exactly the pages of the range |
| RamSaver.Saver.Remaining | louluosrc/qemu-kvm-0.14.0/arch_init.c:177-193 | Returns the number of dirty pages |
| RamSaver.Saver.MarkAllDirty | louluosrc/qemu-kvm-0.14.0/arch_init.c:273-282 | Sets all flags on exactly the pages of blocks whose migration flag was clear |
| RamSaver.Saver.RamBytesTotal | louluosrc/qemu-kvm-0.14.0/arch_init.c:205-214 | Returns the page size times the number of pages |
| RamSaver.Saver.StartMigration | louluosrc/qemu-kvm-0.14.0/arch_init.c:266-294 | Stage 1 from any valid state and onto a stream that may already hold bytes: the blocks permuted and sorted, every page dirty, an empty log, no last block, no bytes counted, and the header with name and length of every block in that order behind what was there |
| RamSaver.Saver.SendWithin | louluosrc/qemu-kvm-0.14.0/arch_init.c:299-307 | The rate-limited loop is a run of sends; it sends as many pages as are dirty or as the limit allows, whichever is less, and bytes_transferred stays the sum of what all sends returned |
| RamSaver.Saver.SendRest | louluosrc/qemu-kvm-0.14.0/arch_init.c:319-325 | Sends as many pages as are dirty, leaves none dirty, and terminates |
| RamSaver.Saver.SaveLive | louluosrc/qemu-kvm-0.14.0/arch_init.c:249-334 | A negative stage and a failed synchronisation leave memory, flags and stream alone; every other stage is a run of the state machine, without guest writes, that ends a section; stage 3 leaves no page dirty and an empty log |
| RamSaver.Saver.GuestStore | louluosrc/qemu-kvm-0.14.0/cpu-all.h:925-928 | A guest store changes exactly its page, and either sets all flags of that page or adds it to the log |
| RamReceiver.Receiver.CheckBlockList | louluosrc/qemu-kvm-0.14.0/arch_init.c:387-417 | The loop computes what the list decoder says, with its 64-bit wrap of the total |
| RamReceiver.Receiver.HostFromStream | louluosrc/qemu-kvm-0.14.0/arch_init.c:336-364 | Leaves the found block, or none, as the remembered one, and consumes the id exactly when CONTINUE is absent |
| RamReceiver.Receiver.ReceiveRecord | louluosrc/qemu-kvm-0.14.0/arch_init.c:375-452 | One turn of the loop has the effect of the decoder of its version, error by error |
| RamReceiver.Receiver.Load | louluosrc/qemu-kvm-0.14.0/arch_init.c:366-456 | For every version: EINVAL and no change outside 3 and 4, otherwise the effect of the section decoder of that version on memory, block list, remembered block and stream |
| RamReceiver.Receiver.LoadStream | louluosrc/qemu-kvm-0.14.0/arch_init.c:366-456 | Call after call has the effect of replaying the whole stream |
| RamReceiver.Receiver.GetRamPtr | louluosrc/qemu-kvm-0.14.0/exec.c:2953-2969 | Finds the block that holds the page and moves it to the front; aborts exactly when no block holds it |
| RamReceiver.Version3StoresTheSame | louluosrc/qemu-kvm-0.14.0/arch_init.c:375-455 | A version 3 record, short or whole, which names a page by its address, stores in memory exactly what the version 4 record naming the page's block stores; the block list is only permuted |
| RamReceiver.Version3ChecksTotal | louluosrc/qemu-kvm-0.14.0/arch_init.c:382-386 | A version 3 header is accepted exactly when its length is that of all blocks together, else EINVAL; its end mark ends the section |
| RamDriver.Migrate | louluosrc/qemu-kvm-0.14.0/migration.c:366-400 | Stage 1, any rounds of guest stores and stage 2, a last round and stage 3, then the receiver reading everything: succeeds exactly when every synchronisation does, and then both memories are equal and are what the guest's own stores made of the old one |
| RamDriver.Iterate | louluosrc/qemu-kvm-0.14.0/savevm.c:1504-1536 | The rounds while the guest runs are one run of the state machine; memory changes by the guest's stores alone |
| RamDriver.OnlyTheGuestWrites | louluosrc/qemu-kvm-0.14.0/arch_init.c:249-334 | No run of sends, synchronisations and section ends changes the sender's memory |
| BlockMigration.MigrationCopiesDisks | louluosrc/qemu-kvm-0.14.0/block-migration.c:558-638 | For every run of bulk reads, dirty reads, completions in order per chunk, sends and guest writes (synchronous, landing before they are reported, or in flight since before the tracking but completed before their chunks are read) that reaches stage 3 with the bulk pass over and nothing in flight or queued, the stage 3 pass leaves every destination disk equal to its source |
| BlockMigration.StepInStep | louluosrc/qemu-kvm-0.14.0/block-migration.c:192-273 | Every step keeps: each chunk passed by the bulk cursor is dirty, or has an unreported guest write, or its newest copy in flight, queue or stream equals the disk |
| BlockMigration.RunInStep | louluosrc/qemu-kvm-0.14.0/block-migration.c:382-494 | The invariant holds after every run |
| BlockMigration.Stage3Cleans | louluosrc/qemu-kvm-0.14.0/block-migration.c:617-622 | The pass of stage 3 keeps the disks as they are and leaves no dirty chunk behind its cursors |
| BlockMigration.ReadDoneKeepsCopy | louluosrc/qemu-kvm-0.14.0/block-migration.c:192-208 | A completion in submission order keeps the newest copy of every chunk good |
| BlockMigration.LoadEffect | louluosrc/qemu-kvm-0.14.0/block-migration.c:681-690 | A loaded record replaces exactly its chunk, cut to the length of the device |
| BlockMigration.DiskChanges | louluosrc/qemu-kvm-0.14.0/block.c:2075-2101 | A write to chunks each of which is dirty, awaits a report, or is still to be read keeps the invariant |
| BlockMigration.StepKeepsWaits | louluosrc/qemu-kvm-0.14.0/block.c:2121-2126 | Every step in order keeps each chunk that a write from before the tracking may still change to be read after it |
| BlockMigration.GuestEffects | louluosrc/qemu-kvm-0.14.0/block.c:2075-2101 | A guest write changes exactly the sectors written and makes dirty exactly the chunks of the device that hold one of them: a synchronous one at once, one in flight when it is reported, and none if it began before the tracking |
| BlockMigrationExact.GuardedMigrationCopiesDisks | louluosrc/qemu-kvm-0.14.0/block-migration.c:255-263 | The same for every completion order at all, when no read of a chunk is submitted while another read of it is in flight |
| BlockMigrationExact.GuardKeepsOne | louluosrc/qemu-kvm-0.14.0/block-migration.c:419-435 | That guard keeps at most one read of a chunk in flight through every step |
| BlockMigrationRace.TwoReadsCanEndWrong | louluosrc/qemu-kvm-0.14.0/block-migration.c:192-208 | The converse: from every reachable state with two reads of one chunk in flight, whatever they hold, guest, device and migration can go on so that the migration finishes with disks that differ |
| BlockMigrationRace.EarlyWriteCanEndWrong | louluosrc/qemu-kvm-0.14.0/block.c:2121-2126 | The converse for early writes: from every reachable state with a write from before the tracking in flight, the migration can go on so that it finishes with disks that differ |
| BlockMigrationExact.UndrainedStage3Iff | louluosrc/qemu-kvm-0.14.0/block-migration.c:464-494 | Stage 3 entered with the bulk pass over, nothing in flight and any queue at all: the disks end equal exactly when every queued chunk is dirty or has already arrived with the disk's contents |
| BlockMigrationExact.StoppedStage3 | louluosrc/qemu-kvm-0.14.0/block-migration.c:617-631 | Wherever the pass of stage 3 stops, the receiver has the source's disks exactly when every chunk still dirty or queued had arrived all the same |
| BlockMigrationExact.RunKeepsSound | louluosrc/qemu-kvm-0.14.0/block-migration.c:382-494 | What every run keeps without any assumption on order: sizes, cursors on chunk borders, a read in flight for every marked chunk |
| BlockMigrationLimits.LateBulkReadLosesWrite | louluosrc/qemu-kvm-0.14.0/block-migration.c:255-263 | Counterexample without completion order: a bulk read that completes after the dirty read of its chunk brings old contents back, with nothing dirty at the end |
| BlockMigrationLimits.EarlyWriteIsLost | louluosrc/qemu-kvm-0.14.0/block.c:2121-2126 | Counterexample: a write that was in flight when tracking began lands behind the read of its chunk and is lost, with nothing dirty at the end |
| BlockMigrationLimits.RefusedReadLosesChunk | louluosrc/qemu-kvm-0.14.0/block-migration.c:441-446 | Counterexample: one dirty chunk whose read the device refuses in stage 3; nothing of the pass gets on the stream and the receiver keeps the old contents |
| BlockMigrationLimits.UndrainedQueueLosesChunk | louluosrc/qemu-kvm-0.14.0/block-migration.c:472-475 | Counterexample with an undrained queue: the chunk still queued at stage 3 never arrives |
| BlockMigrationLimits.OneChunkMigrates | louluosrc/qemu-kvm-0.14.0/block-migration.c:558-638 | A concrete run that meets every assumption of the copy theorem |
| BlockSaver.SetAioInflight | louluosrc/qemu-kvm-0.14.0/block-migration.c:158-178 | Exactly the bits of the touched chunks change in the packed words |
| BlockSaver.AioInflight | louluosrc/qemu-kvm-0.14.0/block-migration.c:146-156 | True exactly for a sector inside the device whose chunk is marked |
| BlockMigration.StepKeepsFlying | louluosrc/qemu-kvm-0.14.0/block-migration.c:419-420 | A chunk marked as being read always has a read in flight |
| BlockSaver.BlockMigrator.ReadCb | louluosrc/qemu-kvm-0.14.0/block-migration.c:192-208 | Any completion moves the block to the queue, clears its mark and keeps both counters equal to the lengths they count; the run stays in order when it is the oldest of its chunk |
| BlockSaver.BlockMigrator.AioFlush | louluosrc/qemu-kvm-0.14.0/block-migration.c:391-393 | Ends with nothing in flight and everything queued, by a run of the state machine that stays in order |
| BlockSaver.BlockMigrator.SaveDeviceBulk | louluosrc/qemu-kvm-0.14.0/block-migration.c:210-273 | Submits the chunk at the cursor, clears exactly its dirty bit and moves the cursor to the next chunk or the end of the device, or notes the error of a device that refuses and moves nothing; true exactly at the end of the device |
| BlockSaver.BlockMigrator.SaveBulkedBlock | louluosrc/qemu-kvm-0.14.0/block-migration.c:335-371 | True exactly when some device is unfinished; then the first such device and no other is served as said for one device, and its read is the only new one; the percentages told are those of all sectors completed, rise strictly and stay within 0 .. 100 |
| BlockSaver.BlockMigrator.SaveDeviceDirty | louluosrc/qemu-kvm-0.14.0/block-migration.c:382-447 | Terminates at the first dirty chunk at or behind the cursor, every chunk it passes being clean, or at the end of the device with no dirty chunk changed; that chunk alone becomes clean, and is the newest read in flight or the newest block on the stream, with the contents of the disk; a refused read leaves it dirty and notes the error, after which nothing more gets on the stream |
| BlockSaver.BlockMigrator.SaveDirtyBlock | louluosrc/qemu-kvm-0.14.0/block-migration.c:449-462 | False means that all cursors are at the end and nothing was dirty behind any of them; true means that of all devices in order the first dirty chunk at or behind a cursor was served as said for one device, and no other chunk changed |
| BlockSaver.PercentIs | louluosrc/qemu-kvm-0.14.0/block-migration.c:356-361 | The percentage is 100 times the sectors completed over all sectors, rounded down, and 100 without sectors |
| BlockSaver.SucceededIs | louluosrc/qemu-kvm-0.14.0/block-migration.c:473-488 | The flush sends the queue up to the first block whose read reported failure |
| BlockSaver.AcceptedOfIs | louluosrc/qemu-kvm-0.14.0/block-migration.c:616-632 | The pass of stage 3 counts the answers up to the first refusal |
| BlockSaver.BlockMigrator.FlushBlks | louluosrc/qemu-kvm-0.14.0/block-migration.c:464-494 | Hands a prefix of the queue to the file in order, each block once, up to the rate limit or the first block whose read reported failure, and notes an error exactly in the second case; all of it is on the stream unless the file had an error before |
| BlockSaver.BlockMigrator.ResetDirtyCursor | louluosrc/qemu-kvm-0.14.0/block-migration.c:373-380 | All dirty cursors back to zero, nothing else changed |
| BlockSaver.BlockMigrator.Stage2 | louluosrc/qemu-kvm-0.14.0/block-migration.c:572-609 | Terminates under every rate limit; reads until what is in flight or queued reaches the limit or nothing is left to read, overshoots by less than one block, sends no more than the last flush allows; ends its section exactly when the file has no error, and then all that was sent is on the stream |
| BlockSaver.BlockMigrator.Stage3 | louluosrc/qemu-kvm-0.14.0/block-migration.c:572-638 | With the guest stopped and the bulk pass over: completes exactly when the file had no error, the flush meets no failed read and the devices accept as many reads as there are dirty chunks; the number of chunks on the stream; the disks end equal exactly when every chunk dirty or queued where the stream ends had arrived, and, if it completes, exactly when no block left in the queue was needed |
| BlockSaver.BlockMigrator.Guest | louluosrc/qemu-kvm-0.14.0/block.c:2075-2101 | A guest write submitted, landing, reported or done at once is a step of the state machine |
| BlockDriver.Migrate | louluosrc/qemu-kvm-0.14.0/migration.c:366-400 | Stage 1, any rounds of guest and device steps and stage 2, stage 3, then block_load on the bytes of all sections: after success both sides have the same disks exactly when no block left in the queue of stage 3 was needed, so always when it was drained |
| BlockReceiver.SectionIsLoaded | louluosrc/qemu-kvm-0.14.0/block-migration.c:640-714 | Any mixture of block and progress items up to the end mark loads without error and has the effect of its blocks |
| BlockReceiver.SentIsAccepted | louluosrc/qemu-kvm-0.14.0/block-migration.c:86-100 | Everything any migration run sends, in order or not and cut into sections anywhere, is accepted by a receiver with disks of the same sizes and distinct names |
| BlockReceiver.StreamIsLoaded | louluosrc/qemu-kvm-0.14.0/block-migration.c:640-714 | Section after section, a stream has the effect of its blocks, wherever it is cut |
| BlockReceiver.MigrationArrives | louluosrc/qemu-kvm-0.14.0/block-migration.c:558-714 | From end to end: the bytes of the sections of a guarded migration, given to block_load call after call, leave the source's disks on the receiver |
| BlockReceiver.Receiver.Load | louluosrc/qemu-kvm-0.14.0/block-migration.c:640-714 | The loop over the bytes, with its remembered device, has the effect of the decoder on disks and stream, with EINVAL for unknown devices or flags and EIO beyond the end of a device |
| BlockReceiver.Receiver.LoadStream | louluosrc/qemu-kvm-0.14.0/block-migration.c:640-714 | Call after call has the effect of replaying the whole stream |
| BlockStream.ItemReadBack | louluosrc/qemu-kvm-0.14.0/block-migration.c:86-100 | The bytes of a block, a progress item or an end mark are read back as exactly that item, and the rest of the stream is left |
| BlockStream.ItemLayout | louluosrc/qemu-kvm-0.14.0/block-migration.c:86-100 | The bytes of a block, a progress item and an end mark, with the flag values written out |
| BlockReceiver.SectionReadBack | louluosrc/qemu-kvm-0.14.0/block-migration.c:652-711 | Reading the bytes of a section does what its items do, errors included, and stops right behind its end mark |
| BlockReceiver.ItemEffect | louluosrc/qemu-kvm-0.14.0/block-migration.c:652-711 | For every item: a block changes exactly the sectors it has on the first device of its name, and is EINVAL for no such device or one without sectors, EIO behind its end; other items change nothing and are EINVAL without flags |
| BlockReceiver.SectionEnds | louluosrc/qemu-kvm-0.14.0/block-migration.c:652-711 | A section ends at its end mark, at the first refused item, or with EIO inside an item, and at nothing else |
| BlockReceiver.BytesAreLoaded | louluosrc/qemu-kvm-0.14.0/block-migration.c:640-714 | The bytes of a whole stream, cut into sections anywhere, load without error and have the effect of its blocks |
| DirtyBitmap.BitmapFollowsHistory | louluosrc/qemu-kvm-0.14.0/block.c:935-961 | After every history of non-empty writes and resets since tracking was turned on: dirty_count is the number of set bits, and a bit is set exactly when its chunk was written after its last reset |
| DirtyBitmap.RangeIsPut | louluosrc/qemu-kvm-0.14.0/block.c:943-960 | Marking a range sets exactly its bits and moves the count by exactly the bits that changed |
| DirtyBitmap.TouchedChunks | louluosrc/qemu-kvm-0.14.0/block.c:940-941 | First and last chunk enclose exactly the chunks that hold one of the sectors |
| DirtyBitmap.ReenablingKeepsCountIffClean | louluosrc/qemu-kvm-0.14.0/block.c:2738-2746 | Enabling tracking that is already on leaves the count right exactly when no bit is set |
| DirtyBitmap.ReenablingLosesCount | louluosrc/qemu-kvm-0.14.0/block.c:2738-2746 | Counterexample: one write, tracking enabled again, count 0 with one bit set |
| BlockDevice.Device.Read | louluosrc/qemu-kvm-0.14.0/block.c:922-933 | Whole sectors, or ENOMEDIUM for a closed device, EIO for a range that does not lie inside, or the driver's error |
| BlockDevice.Device.SetDirtyBitmap | louluosrc/qemu-kvm-0.14.0/block.c:935-961 | The in-place loop over packed words computes the range update with its cached count |
| BlockDevice.Device.Write | louluosrc/qemu-kvm-0.14.0/block.c:969-989 | Changes exactly the sectors written, and marks exactly their chunks, the empty write included; ENOMEDIUM, EACCES and EIO in that order, with nothing changed |
| BlockDevice.EmptyWriteMarksIff | louluosrc/qemu-kvm-0.14.0/block.c:941-944 | A write of no sectors marks the chunk of its sector exactly when that sector is 0 or does not begin a chunk |
| BlockDevice.WordsFitAllocationIff | louluosrc/qemu-kvm-0.14.0/block.c:2740-2744 | The words accessed for a device's chunks lie inside the bytes allocated exactly when their number is a multiple of eight, that is, when the last chunk is among the last eight of its word; otherwise at most seven bytes behind them are touched |
| BlockDevice.OneChunkOverruns | louluosrc/qemu-kvm-0.14.0/block.c:2740-2744 | Counterexample: a device of one chunk gets one byte and has eight accessed |
| BlockDevice.Device.Pread | louluosrc/qemu-kvm-0.14.0/block.c:991-1034 | Returns exactly the bytes of the range for every offset and length, through at most three sector reads; without driver faults ENOMEDIUM or EIO exactly for a closed device or missing sectors |
| BlockDevice.Device.Pwrite | louluosrc/qemu-kvm-0.14.0/block.c:1036-1083 | A successful write changes exactly the addressed bytes and marks exactly their chunks; without driver faults it succeeds exactly when the device is writable and holds the range, with ENOMEDIUM, EIO or EACCES otherwise; a failed one touches only the surrounding sectors |
| BlockDevice.HoldsIff | louluosrc/qemu-kvm-0.14.0/block.c:991-1083 | On a device of whole sectors the sectors around a byte range exist exactly when the range lies inside |
| BlockDevice.Device.WriteThenRead | louluosrc/qemu-kvm-0.14.0/block.c:991-1083 | bdrv_pread of any range after bdrv_pwrite gives the written bytes where they were written and the old ones elsewhere |
| BlockDevice.Device.SetDirtyTracking | louluosrc/qemu-kvm-0.14.0/block.c:2734-2753 | The count is right afterwards exactly unless tracking was on with some bit set |
| BlockDevice.Device.GetDirty | louluosrc/qemu-kvm-0.14.0/block.c:2755-2766 | True exactly when tracking is on and the bit of the sector's chunk is set, for sectors inside the device |
| BlockDevice.Device.ResetDirty | louluosrc/qemu-kvm-0.14.0/block.c:2768-2772 | Clears exactly the touched chunks and keeps the count right |
| BlockCommit.Overlay.Commit | louluosrc/qemu-kvm-0.14.0/block.c:758-861 | On every exit that leaves the device open the guest sees what it saw before; the copy is finished exactly when it is reached and every allocated sector can be read, lies inside the backing file and can be written; the backing file alone then holds the contents; every return value, and success is reported for a failed copy exactly on a read-only backing file whose two reopenings succeed; the backing file stays as writable as it was, but is kept read-only from a failed reopening for writing on |
| BlockCommit.Overlay.CopyAll | louluosrc/qemu-kvm-0.14.0/block.c:810-826 | The copy loop preserves the visible contents wherever it stops, finishes exactly when every allocated sector can be copied, and then makes the backing file equal to the visible contents |
| BlockCommit.Overlay.CopyRun | louluosrc/qemu-kvm-0.14.0/block.c:814-825 | One run is copied exactly, or fails and damages only sectors that the overlay hides |
| BlockCommit.FailedCopyReportsSuccess | louluosrc/qemu-kvm-0.14.0/block.c:842-860 | Counterexample: one allocated sector that cannot be read, over a read-only backing file; commit returns 0 and the overlay still holds the sector |
| BlockCommit.CommitAfterFailedReopen | louluosrc/qemu-kvm-0.14.0/block.c:788-806 | Once the backing file could not be reopened for writing and is open read-only as before, every later commit is EACCES: the reopening set keep_read_only, which nothing clears |
| IoVector.CopyContinues | louluosrc/qemu-kvm-0.14.0/cutils.c:187-207 | One more source segment: skipped, cut at the size, or appended from where skipping ends, so that the appended bytes stay take(size, drop(skip, source)) |
| IoVector.Qiov.Add | louluosrc/qemu-kvm-0.14.0/cutils.c:157-169 | Appends the segment, keeps the cached size, and grows a full allocation from n to 2n + 1 and no other |
| IoVector.Qiov.Copy | louluosrc/qemu-kvm-0.14.0/cutils.c:178-209 | Appends exactly take(size, drop(skip, source)), with no more new segments than the source has |
| IoVector.Qiov.Concat | louluosrc/qemu-kvm-0.14.0/cutils.c:211-214 | Appends the first bytes of the source up to the size |
| IoVector.Qiov.ToBuffer | louluosrc/qemu-kvm-0.14.0/cutils.c:231-240 | The concatenation of the segments |
| IoVector.Qiov.FromBuffer | louluosrc/qemu-kvm-0.14.0/cutils.c:247-261 | The first count bytes become those of the buffer, the rest stays, segment lengths stay |
| MultiwriteMerge.MergeKeepsMeaningIff | louluosrc/qemu-kvm-0.14.0/block.c:2217-2266 | With touching requests joined: on every disk, the merged requests leave the bytes of the plain sorted requests, zeros in approved gaps that no request covers and everything else alone, exactly when no byte of a request is cut off, or overlaid by filler when it is not zero, without a later request writing it again |
| MultiwriteMerge.MergeKeepsMeaning | louluosrc/qemu-kvm-0.14.0/block.c:2207-2276 | The direction a caller uses, for every decision of driver and segment limit: nothing lost, same meaning, for any number of adjacent or overlapping requests |
| MultiwriteMerge.LongEnoughDropsNothing | louluosrc/qemu-kvm-0.14.0/block.c:2246-2249 | If no joined request ends before the one it joins, nothing is cut off |
| MultiwriteMerge.LongEnoughKeepsMeaning | louluosrc/qemu-kvm-0.14.0/block.c:2217-2266 | Under that condition, which a caller can check, the merge keeps the meaning of the requests |
| MultiwriteMerge.ShortRequestLosesTail | louluosrc/qemu-kvm-0.14.0/block.c:2246-2261 | Counterexample: one sector written inside three loses the last of the three, whatever they hold |
| MultiwriteMerge.FillOverwritesRequest | louluosrc/qemu-kvm-0.14.0/block.c:2221-2258 | Second counterexample, in whole sectors: after a short join the next approved gap is filled from the early end, over bytes of the first request |
| MultiwriteMerge.FillMeetsRequestIff | louluosrc/qemu-kvm-0.14.0/block.c:2251-2258 | Filler covers bytes of an earlier request exactly when there is a gap and that request ends behind the one right before it |
| MultiwriteMerge.FewSegmentsTouchingJoined | louluosrc/qemu-kvm-0.14.0/block.c:2236-2238 | While all segments together fit in one vector, touching requests are always joined |
| MultiwriteMerge.JoinRequests | louluosrc/qemu-kvm-0.14.0/block.c:2240-2266 | The joined request holds the truncated first one, the zeros and the second one |
| MultiwriteMerge.Decide | louluosrc/qemu-kvm-0.14.0/block.c:2219-2238 | Joins exactly when the segments of both and one more fit in a vector and the requests touch or the driver approves |
| MultiwriteMerge.SortAndMerge | louluosrc/qemu-kvm-0.14.0/block.c:2207-2276 | For requests in any order: a sorted permutation of them is merged in place, the merged requests in front and each slot's tag that of its request |
| MultiwriteCompletion.CallbacksExactlyOnce | louluosrc/qemu-kvm-0.14.0/block.c:2292-2370 | For every interleaving, completions inside submissions included: a multiwrite that returned 0 calls callback 0, 1, and so on, each exactly once and in order, when nothing is in flight any more and not before, and each gets the result of the first completion or submission that failed, 0 if none did; -1 calls none; the control block is freed once and never used afterwards |
| MultiwriteCompletion.StepKeepsGood | louluosrc/qemu-kvm-0.14.0/block.c:2169-2184 | The counter is the requests in flight plus the dummy, after every step |
| MultiwriteCompletion.EarlyFailureSubmitsNothing | louluosrc/qemu-kvm-0.14.0/block.c:2344-2350 | -1 is returned only when the very first submission fails |
| MultiwriteCompletion.Multiwrite.Completed | louluosrc/qemu-kvm-0.14.0/block.c:2169-2184 | The first failure is kept, the counter goes down by one, and exactly at zero every callback is made once with the stored error; that is the step of the protocol |
| MultiwriteCompletion.Multiwrite.UserCallbacks | louluosrc/qemu-kvm-0.14.0/block.c:2155-2167 | As many calls as requests, call i for request i with the stored error |
| MultiwriteCompletion.Multiwrite.Submit | louluosrc/qemu-kvm-0.14.0/block.c:2336-2370 | The submission loop is a run of the protocol to its return; on -1 nothing was called or left in flight, and callbacks made before the return carry the stored error |
| MultiwriteDisk.MultiwriteWritesDisk | louluosrc/qemu-kvm-0.14.0/block.c:2292-2370 | Merge and completion together: when no completion and no submission failed, every callback gets 0, every joined request has completed, and in whatever order they did, the disk holds what the requests ask for exactly when the merge loses nothing |
| MultiwriteDisk.MergedApart | louluosrc/qemu-kvm-0.14.0/block.c:2219-2266 | With touching requests joined, the joined requests do not meet |
| AesCipher.InverseCipherUndoesCipher | louluosrc/qemu-kvm-0.14.0/aes.c:1076-1261 | For every block, number of rounds and round keys, the equivalent inverse cipher of section 5.3.5 of FIPS 197 under the reversed and transformed keys undoes the cipher, given only that Si inverts S and that doubling is linear over xor |
| AesField.InvMixColumnUndoesMixColumn | louluosrc/qemu-kvm-0.14.0/aes.c:46-57 | The matrix of the Td formulas inverts that of the Te formulas |
| AesField.InvMixColumnAdds | louluosrc/qemu-kvm-0.14.0/aes.c:853-876 | The inverse column transform distributes over xor, which is why round keys may be transformed instead |
| AesField.XtimeIsLinear | louluosrc/qemu-kvm-0.14.0/aes.c:46-57 | Doubling in the field is linear over xor, so the assumption on tables can be met |
| AesField.Factors | louluosrc/qemu-kvm-0.14.0/aes.c:46-57 | The products the matrices use are those of double and add, for every doubling |
| AesField.MixedAt | louluosrc/qemu-kvm-0.14.0/aes.c:46-57 | Each byte of a mixed column, both ways, by the circulant matrices of sections 5.1.3 and 5.3.3 of FIPS 197 |
| AesCipher.ShiftedAt | louluosrc/qemu-kvm-0.14.0/aes.c:976-1036 | Row r of the state moves r columns to the left, and to the right in the inverse |
| AesTables.EncRoundOnWords | louluosrc/qemu-kvm-0.14.0/aes.c:976-1036 | Four table look-ups and xors per word compute one round of the cipher |
| AesTables.DecRoundOnWords | louluosrc/qemu-kvm-0.14.0/aes.c:1167-1227 | The same for one round of the inverse cipher |
| AesTables.LastEncRoundOnWords | louluosrc/qemu-kvm-0.14.0/aes.c:1038-1070 | The last round with masked table bytes is the round without MixColumns |
| AesTables.LastDecRoundOnWords | louluosrc/qemu-kvm-0.14.0/aes.c:1229-1261 | The same for the last inverse round |
| AesBlock.Encrypt | louluosrc/qemu-kvm-0.14.0/aes.c:885-1070 | The in-place word code computes the cipher on 16 bytes, input and output buffers possibly the same, and touches nothing else |
| AesBlock.Decrypt | louluosrc/qemu-kvm-0.14.0/aes.c:1076-1261 | The in-place word code computes the equivalent inverse cipher |
| AesBlock.SetDecryptKey | louluosrc/qemu-kvm-0.14.0/aes.c:846-876 | The in-place loops leave the decryption keys: reversed order, inner keys transformed, for every even number of rounds |
| AesBlock.InvMixWordMixes | louluosrc/qemu-kvm-0.14.0/aes.c:856-875 | Looking Te4 up before Td0..Td3 transforms the column without substituting it |
| AesBlock.DecryptUndoesEncrypt | louluosrc/qemu-kvm-0.14.0/aes.c:832-1261 | Decryption under the rewritten schedule undoes encryption under the original one, on bytes |
| AesCbc.DecryptionUndoesEncryption | louluosrc/qemu-kvm-0.14.0/aes.c:1276-1312 | CBC decryption undoes CBC encryption for every length, partial last block included, over any block cipher and its inverse |
| AesCbc.SameVectorLeftBehind | louluosrc/qemu-kvm-0.14.0/aes.c:1306-1312 | Both directions leave the same ivec exactly when there is no partial block or the last block is a fixed point of decryption |
| AesCbc.EncryptionInPieces | louluosrc/qemu-kvm-0.14.0/aes.c:1276-1285 | Two pieces with the carried ivec encrypt like their concatenation when the first is whole blocks |
| AesCbc.DecryptionInPieces | louluosrc/qemu-kvm-0.14.0/aes.c:1296-1305 | The same for decryption |
| AesCbc.EncryptedBlock | louluosrc/qemu-kvm-0.14.0/aes.c:1276-1294 | Block i of the ciphertext is the cipher of block i of the text xored with ciphertext block i - 1, or the vector; a short last block is filled up from there; the last block is the vector left behind |
| AesCbc.DecryptedByte | louluosrc/qemu-kvm-0.14.0/aes.c:1295-1313 | Every byte of the plaintext is that of the deciphered block xored with the ciphertext block before, or the vector; the vector left behind is the last ciphertext block, or, after a partial block, the deciphered one |
| AesCbc.AesCbcRoundTrip | louluosrc/qemu-kvm-0.14.0/aes.c:1265-1314 | The round trip for AES itself, every key schedule, round count and length |
| AesCbc.CbcEncrypt | louluosrc/qemu-kvm-0.14.0/aes.c:1276-1294 | The loops over buffers, in place or not, compute the chained encryption and the ivec left behind |
| AesCbc.CbcDecrypt | louluosrc/qemu-kvm-0.14.0/aes.c:1295-1313 | The same for decryption, in place on whole blocks |
| Vcpus.NoGuestCodeWhilePaused | louluosrc/qemu-kvm-0.14.0/cpus.c:769-787 | In every interleaving, from the return of pause_all_vcpus to the next resume_all_vcpus no CPU is in guest code or enters it |
| Vcpus.NoEntryWhilePausing | louluosrc/qemu-kvm-0.14.0/cpus.c:120-127 | From the moment the stop flags are set, no CPU enters the guest |
| Vcpus.EntersGuestIff | louluosrc/qemu-kvm-0.14.0/cpus.c:120-127 | A CPU at the top of its loop enters the guest exactly when it has no stop request, is not stopped and the VM runs; otherwise it takes the other branch |
| Vcpus.IoThreadSteps | louluosrc/qemu-kvm-0.14.0/cpus.c:756-799 | What the I/O thread's steps do to every CPU's flags, when each is possible, and that pause_all_vcpus sees all paused exactly when every CPU is stopped |
| Vcpus.ResumedCanRun | louluosrc/qemu-kvm-0.14.0/cpus.c:789-799 | From every reachable state in which the VM runs, after resume_all_vcpus any CPU can come to run the guest by steps of its own |
| Vcpus.WorkCanComplete | louluosrc/qemu-kvm-0.14.0/cpus.c:434-476 | From every reachable state, a caller of run_on_cpu that waits can come to return by steps of that CPU and of the I/O thread |
| Vcpus.PauseCanComplete | louluosrc/qemu-kvm-0.14.0/cpus.c:779-786 | Wherever the threads are while pause_all_vcpus waits, their own steps can bring it to return: no request is lost and no CPU is stuck |
| Vcpus.StopIsKept | louluosrc/qemu-kvm-0.14.0/cpus.c:478-486 | A CPU's own steps never undo a stop nor drop a request without acting on it |
| Vcpus.WorkRunsOnceInOrder | louluosrc/qemu-kvm-0.14.0/cpus.c:434-476 | In every reachable state the functions run on a CPU are the first arrivals, in order, each once; a caller has returned only if its function has run; an empty list means all have run |
| Vcpus.DoneItemsAreNotTouched | louluosrc/qemu-kvm-0.14.0/cpus.c:445-473 | No step of any thread reads or writes an item marked done |
| Vcpus.StepKeepsInv | louluosrc/qemu-kvm-0.14.0/cpus.c:462-476 | Every step keeps the linked list, the order of execution and the stop flags consistent |
| Vcpus.RanOnlyGrows | louluosrc/qemu-kvm-0.14.0/cpus.c:469-473 | What has run stays run, through every run |
| VcpuCode.Vcpu.Enqueue | louluosrc/qemu-kvm-0.14.0/cpus.c:443-451 | The item becomes the end of the linked list |
| VcpuCode.Vcpu.FlushQueuedWork | louluosrc/qemu-kvm-0.14.0/cpus.c:462-476 | Runs and marks done exactly the items on the list and those that arrive meanwhile, in order, and leaves the list empty |
| VcpuCode.Vcpu.WaitIoEventCommon | louluosrc/qemu-kvm-0.14.0/cpus.c:478-486 | Answers a stop request, then runs the queued work |
| VcpuCode.AllVcpusPaused | louluosrc/qemu-kvm-0.14.0/cpus.c:756-767 | True exactly when every CPU is stopped |
| VcpuCode.PauseAllVcpus | louluosrc/qemu-kvm-0.14.0/cpus.c:769-787 | Returns within a schedule exactly when every CPU was stopped before or gets its turn, and then all are stopped; otherwise every CPU still has its request |
| VcpuCode.ResumeAllVcpus | louluosrc/qemu-kvm-0.14.0/cpus.c:789-799 | Clears both flags of every CPU |
| VcpuRefinement.WaitIoEventCommon | louluosrc/qemu-kvm-0.14.0/cpus.c:462-486 | On a CPU structure that shows a reachable state, the code is a run of the state machine from the wait to the top of the thread's loop, with every item arriving during the function during which it arrived, and leaves a structure that shows the reachable state it ends in |
| VcpuRefinement.RunOnCpu | louluosrc/qemu-kvm-0.14.0/cpus.c:443-451 | Linking an item on the structure is the step of the state machine |
| VcpuRefinement.TopOfLoop | louluosrc/qemu-kvm-0.14.0/cpus.c:612-620 | The answer of cpu_can_run on a CPU structure is yes exactly when the state machine lets that CPU enter the guest, and no exactly when it takes the other branch |
| VcpuRefinement.Resume | louluosrc/qemu-kvm-0.14.0/cpus.c:789-799 | resume_all_vcpus on structures that show a state leaves structures that show the state after the resuming step |
| VcpuRefinement.RequestPause | louluosrc/qemu-kvm-0.14.0/cpus.c:769-777 | The same for the stop requests of pause_all_vcpus |
| VcpuRefinement.SeesPaused | louluosrc/qemu-kvm-0.14.0/cpus.c:779-786 | all_vcpus_paused on the structures is true exactly when the state machine lets pause_all_vcpus return |
| VcpuRefinement.LinksAgree | louluosrc/qemu-kvm-0.14.0/cpus.c:464-473 | The next pointers and done marks of the structure are those of the state machine, items numbered by arrival |
| BufferedFile.NothingLostOrReordered | louluosrc/qemu-kvm-0.14.0/buffered_file.c:110-168 | For every history of puts, ticks and rate changes and every backend: while has_error is 0, the bytes given to the backend followed by the buffer are exactly the bytes accepted; the buffer never outgrows its capacity |
| BufferedFile.PutExtendsStream | louluosrc/qemu-kvm-0.14.0/buffered_file.c:110-168 | A put without error adds its bytes at the end of the stream and returns their number; after an error it changes nothing and returns -EINVAL |
| BufferedFile.OvershootAtMostOnePut | louluosrc/qemu-kvm-0.14.0/buffered_file.c:128-151 | Between ticks, direct bytes exceed the limit by at most the length of one put |
| BufferedFile.FlushAnswers | louluosrc/qemu-kvm-0.14.0/buffered_file.c:73-108 | The flush, answer by answer of the backend: EAGAIN freezes and ends it, any other answer that is not positive is an error, a positive one takes so many bytes from the front |
| BufferedFile.DirectAnswers | louluosrc/qemu-kvm-0.14.0/buffered_file.c:128-151 | The direct part of a put, answer by answer, with every byte taken counted; nothing is offered when frozen or when the limit is exceeded |
| BufferedFile.PutEffects | louluosrc/qemu-kvm-0.14.0/buffered_file.c:110-168 | What a put without error does to every field: what it sends and what it keeps, its result, the error, the freeze and the call of put_ready |
| BufferedFile.TickEffects | louluosrc/qemu-kvm-0.14.0/buffered_file.c:232-252 | A tick without error changes nothing while frozen; otherwise it flushes, clears the count and calls put_ready once |
| BufferedFile.ReadyIsCounted | louluosrc/qemu-kvm-0.14.0/buffered_file.c:163-252 | Over every history put_ready is called as often as there are ticks without error and freeze and empty puts at position 0 without error and within the limit, and never after an error |
| BufferedFile.CloseDeliversAll | louluosrc/qemu-kvm-0.14.0/buffered_file.c:170-191 | A close that meets no error has given the backend everything accepted |
| BufferedFile.FailedFlushLetsPutOvertake | louluosrc/qemu-kvm-0.14.0/buffered_file.c:126-151 | Counterexample past an error: a put whose flush failed sends its own bytes ahead of the waiting ones and reports success |
| BufferedFile.OvertakingPossibleIff | louluosrc/qemu-kvm-0.14.0/buffered_file.c:110-157 | Some backend lets a put give it bytes while earlier ones still wait, exactly when the file has no error, bytes are waiting, the put brings bytes and the transfer limit is not exceeded |
| BufferedFile.OvertakenIsLost | louluosrc/qemu-kvm-0.14.0/buffered_file.c:126-151 | After that the backend holds an unfinished stretch of the waiting bytes with bytes of the put right behind it, and the file is in error |
| BufferedFile.UsedAfterFreePossibleIff | louluosrc/qemu-kvm-0.14.0/buffered_file.c:232-239 | Some backend makes a history use the freed file exactly when a call comes behind a tick that comes behind an error the file already has, or behind the first operation that has to offer bytes, which the history alone decides |
| BufferedFile.FreedFileIsUsed | louluosrc/qemu-kvm-0.14.0/buffered_file.c:232-239 | Counterexample: a put, a backend that fails, a tick, another put |
| BufferedFile.QemuFileBuffered.AppendBytes | louluosrc/qemu-kvm-0.14.0/buffered_file.c:49-71 | Appends the bytes, growing the capacity by size + 1024 when they do not fit |
| BufferedFile.QemuFileBuffered.FlushBuffer | louluosrc/qemu-kvm-0.14.0/buffered_file.c:73-108 | The loop and the move in place compute the flush, for every pattern of partial writes, EAGAIN and errors |
| BufferedFile.QemuFileBuffered.Put | louluosrc/qemu-kvm-0.14.0/buffered_file.c:110-168 | New state and result are those of the put; put_ready is called exactly when there was no error, the put is empty at position 0 and the limit is not exceeded |
| BufferedFile.QemuFileBuffered.CloseFile | louluosrc/qemu-kvm-0.14.0/buffered_file.c:177-181 | Terminates for every finite backend and computes the close |
| BufferedFile.QemuFileBuffered.Tick | louluosrc/qemu-kvm-0.14.0/buffered_file.c:232-252 | A new allowance, a flush, and exactly one call of put_ready when the file has no error and is not frozen; on error the file is closed and reported freed, exactly then |
| BufferedFile.QemuFileBuffered.RateLimited | louluosrc/qemu-kvm-0.14.0/buffered_file.c:193-207 | True exactly when there is no error and the file is frozen or the limit exceeded |
| BufferedFile.QemuFileBuffered.ChangeRate | louluosrc/qemu-kvm-0.14.0/buffered_file.c:209-223 | The limit becomes a tenth of the rate, cut to SIZE_MAX, and nothing else changes; after an error nothing does |
| Calendar.MkTimeGmCounts | louluosrc/qemu-kvm-0.14.0/cutils.c:100-112 | For the n-th day counted day by day from 1970-01-01, whichever it is: the closed form is defined exactly while n days fit in an int of seconds, and is then that count |
| Calendar.MkTimeGmOfDate | louluosrc/qemu-kvm-0.14.0/cutils.c:100-112 | Every valid date with a defined result is reached by counting, and the result is its number of seconds |
| Calendar.NextDayAddsADay | louluosrc/qemu-kvm-0.14.0/cutils.c:107-109 | The next day is exactly 86400 seconds later, across months, leap years and centuries |
| Calendar.CountingReaches | louluosrc/qemu-kvm-0.14.0/cutils.c:104-108 | Counting the closed form's number of days reaches the date, for every year, negative ones included |
| Calendar.CodeCountsIff | louluosrc/qemu-kvm-0.14.0/cutils.c:107-108 | C's truncating divisions give the count exactly when the shifted year is not negative or is a leap year; otherwise they are one day out |
| Calendar.BeforeYearZero | louluosrc/qemu-kvm-0.14.0/cutils.c:107-108 | Counterexample: the first of March of year -1 is a day out |
| ConfigStore.FirstDefinitionWins | louluosrc/cxx_utils/config_file.cpp:58-166 | After any lines, a key has the value of the first line that defines it under its section, or none |
| ConfigStore.LookupIsUnique | louluosrc/cxx_utils/config_file.cpp:139-166 | That determines the answer, so two engines that meet it agree |
| ConfigStore.PrefixMattersIff | louluosrc/cxx_utils/config_file.cpp:66-101 | What a line means depends on the section it stands in exactly when it is a pair with = that is neither comment nor section |
| ConfigStore.LineTextIs | louluosrc/cxx_utils/config_file.cpp:58-66 | The text of a line ends at its first carriage return, else at its newline, and never goes past a zero character; then it is trimmed |
| ConfigStore.LineKinds | louluosrc/cxx_utils/config_file.cpp:67-78 | A line is a comment exactly when empty or beginning with #, a section exactly when in brackets, whose name and a dot become the prefix, and malformed exactly when it is neither and has no =, tab or space |
| ConfigStore.EqualsPair | louluosrc/cxx_utils/config_file.cpp:79-87 | What stands before the first =, behind the prefix, is the key and what stands behind it the value, both trimmed; without a key nothing is stored |
| ConfigStore.BlankPair | louluosrc/cxx_utils/config_file.cpp:88-99 | Without =, what stands before the first tab, or else the first space, is the key and the rest the value, both trimmed and without prefix |
| ConfigStore.NoKeyIff | louluosrc/cxx_utils/config_file.cpp:79-99 | A line stores nothing for want of a key exactly when the key of its only split is empty |
| ConfigStore.PrefixIsLastSection | louluosrc/cxx_utils/config_file.cpp:72-78 | The prefix after any lines is the name of the last section line and a dot, or the old one without any |
| ConfigStore.ReloadSameIff | louluosrc/cxx_utils/config_file.cpp:31-55 | A second load of the same file, which starts in the last section, gives the same answers exactly when the lines before the first section, read under that section and under none, agree over the rest of the file |
| ConfigStore.ReloadSameWithoutHead | louluosrc/cxx_utils/config_file.cpp:31-55 | It does when no line before the first section is a pair with = |
| ConfigStore.ReloadMovesPair | louluosrc/cxx_utils/config_file.cpp:31-55 | Counterexample: a pair before a section moves into the section when the file is loaded again |
| ConfigStore.TrimTakesBlanks | louluosrc/cxx_utils/config_file.cpp:105-120 | Trimming removes spaces at the ends, then tabs at the ends, and nothing else |
| ConfigStore.TrimLeavesBlankIff | louluosrc/cxx_utils/config_file.cpp:105-120 | A blank is left at an end exactly when, behind the spaces there, tabs shield another space |
| ConfigStore.TrimIsNotComplete | louluosrc/cxx_utils/config_file.cpp:105-120 | Counterexample: a tab, a space and a key keep the space |
| ConfigStore.LowerBound | louluosrc/cxx_utils/config_file.cpp:128-129 | The halving search returns the boundary between smaller keys and the rest |
| ConfigStore.LessIff | louluosrc/cxx_utils/config_file.cpp:128-129 | The order of keys is that of strings: a prefix first, else the first difference decides |
| ConfigStore.KeyAtLowerBound | louluosrc/cxx_utils/config_file.cpp:152-155 | In a sorted vector a key is at its lower bound or nowhere |
| ConfigStore.InsertKeepsSorted | louluosrc/cxx_utils/config_file.cpp:131-135 | Insertion at the lower bound keeps the vector strictly sorted |
| ConfigStore.OnlyAnUnendedLineIsLost | louluosrc/cxx_utils/config_file.cpp:45-53 | What is read is a prefix of the file; the length of the rest is that of the text behind the last newline modulo the size of a full read |
| ConfigStore.ChunksAreLines | louluosrc/cxx_utils/config_file.cpp:45-53 | Every read ends at the first newline or at the full length, and is not empty |
| ConfigStore.NothingLostIff | louluosrc/cxx_utils/config_file.cpp:45-53 | Nothing is lost exactly when the text behind the last newline is a whole number of full reads |
| ConfigStore.ShortFileIsLost | louluosrc/cxx_utils/config_file.cpp:47-51 | Counterexample: of a file with the one line k=v and no newline nothing is read |
| ConfigStore.MapConfig.LoadLine | louluosrc/cxx_utils/config_file.cpp:58-126 | A line updates section and map as its meaning says; false exactly for a malformed line |
| ConfigStore.MapConfig.GetString | louluosrc/cxx_utils/config_file.cpp:139-150 | The value of the first defining line, else the default |
| ConfigStore.VecConfig.InsertItem | louluosrc/cxx_utils/config_file.cpp:128-135 | Keeps the vector strictly sorted and inserts only an absent key |
| ConfigStore.VecConfig.LoadLine | louluosrc/cxx_utils/config_file.cpp:58-136 | The same line semantics over the sorted vector |
| ConfigStore.VecConfig.GetString | louluosrc/cxx_utils/config_file.cpp:152-162 | The value of the first defining line, else the default |
| ConfigStore.AskBoth | louluosrc/cxx_utils/config_file.cpp:139-166 | Both engines, given the same lines, give the same string for every key and default |
| MonoCursor.MaskRoundTrip | louluosrc/qemu-kvm-0.14.0/cursor.c:183-210 | After setting a mono cursor, the mask getter returns the mask bit for bit, for either transparency, with zero padding bits |
| MonoCursor.ImageRoundTrip | louluosrc/qemu-kvm-0.14.0/cursor.c:159-181 | The image getter returns the image bits exactly where the pixel is opaque, zero elsewhere and in the padding |
| MonoCursor.ImageComesBackIff | louluosrc/qemu-kvm-0.14.0/cursor.c:143-172 | Image bits survive for every pixel exactly when the foreground has 24 bits and differs from the background's 24 bits |
| MonoCursor.PackStep | louluosrc/qemu-kvm-0.14.0/cursor.c:167-178 | Setting one bit changes the bit of exactly that pixel |
| MonoCursor.Cursor.SetMono | louluosrc/qemu-kvm-0.14.0/cursor.c:128-157 | Every pixel gets the colour that its image and mask bits call for |
| MonoCursor.Cursor.GetMonoImage | louluosrc/qemu-kvm-0.14.0/cursor.c:159-181 | Exactly the bits of opaque pixels in the foreground colour are set |
| MonoCursor.Cursor.GetMonoMask | louluosrc/qemu-kvm-0.14.0/cursor.c:183-210 | Exactly the bits of transparent, or of opaque, pixels are set |

## Left out

Assumptions of the models, each with what it leaves uncovered:

- RAM pages are a multiple of 64 bytes, blocks are disjoint, non-empty and have distinct ids, and both sides have the same list of ids and lengths.
- A guest write to RAM either sets its page's flags at once or is found in the dirty log at the next synchronisation. In RamSaver `ram_save_block` is one step with respect to guest writes; RamTearing takes it apart.
- A stream that ends early is an I/O error at once, where the source reads zeros up to its next check; `madvise` has no effect on contents.
- Bandwidth and downtime estimates of both migrations, which decide only when stage 3 begins, and monitor output.
- After an error of the file the headers of later blocks still reach it without name and contents; the model keeps only whole items.
- `blk_mig_cleanup` frees the lists of devices and blocks; the model keeps them to speak of them.
- `qsort` is an insertion sort; where it may order equal elements freely, the theorems hold for every sorted order.
- Growable devices.
- BlockSaver.BlockMigrator.SaveDeviceBulk: `shared_base` is off, because the search for allocated sectors asks a driver that is not part of this model.
- BlockSaver.BlockMigrator.AioFlush: completes reads of one chunk in the order of their submission, because in other orders the disks can end unequal, which BlockMigrationRace shows.
- BlockSaver.BlockMigrator.Stage2: devices refuse finitely many reads, because its loop otherwise need not end.
- BlockSaver.BlockMigrator.Stage3: the same, because its loop tries a refused read again.
- BlockDriver.Migrate: writes from before the tracking have completed when it begins, and reads of one chunk complete in order; BlockMigrationExact and BlockMigrationRace say what holds otherwise.
- BlockDevice.Device.SetDirtyTracking: allocates whole words, so that accesses behind the allocation are a statement of BlockDevice.WordsFitAllocationIff and not undefined behaviour.
- Concrete block drivers, sockets, timers, signals and condition variables: they appear as arbitrary results, arbitrary completion orders or arbitrary schedules.
- Literal AES tables and forward key expansion: S, Si and the doubling map are arbitrary functions with Si after S the identity and doubling linear over xor; round keys are arbitrary.
- The `BlockMigrator` methods keep dirty chunks as a set; the packed form of the same bits is in DirtyBitmap and BlockDevice.
- Vcpus: a fixed set of CPUs; wake-ups are not modelled, so waiting threads may stay waiting, and `run_on_cpu` from the CPU's own thread, a plain call, is not a step.
- `get_int`, `copy_item_data` and file opening of the configuration store; characters are compared by code.
- VcpuCode.PauseAllVcpus: waits as often as a given schedule says, because the loop has no bound of its own.
- VcpuCode.Vcpu.FlushQueuedWork: a given finite number of items arrives while functions run, because otherwise the loop need not end.
- BufferedFile.QemuFileBuffered.CloseFile: the backend fails after a finite script of answers, because the loop otherwise need not end.
- Disassemblers, option parsing and console output are tables and formatting, without state that outlives a call; Bluetooth, network and database clients rest on devices and libraries that are not part of the repository; the exercises are separate small programs.
