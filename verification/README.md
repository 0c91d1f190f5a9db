# pexync: the delta transfer, verified

pexync synchronises directories by sending, for every file that differs, instructions for rebuilding it from the copy
the receiver already has. This project models that path in Dafny and proves what it does to the bytes of a file, and
how the goroutines of a local sync start, hand work on and stop.

The pipeline for one file, each stage proved equal to a function on values, and those functions proved about:

| file | models |
|---|---|
| `Adler32.dfy`, `RollingHash.dfy` | Adler-32 (section 2.2 of RFC 1950) and the circular rolling checksum `Radler32` |
| `Reader.dfy`, `BlockHash.dfy` | section readers, the block-size choice, the weak-sum table of a reference file |
| `GreedyScan.dfy`, `MessageCuts.dfy` | what the delta encoder means: a greedy scan that recomputes Adler-32 everywhere, and where it cuts messages |
| `RollReader.dfy`, `BytesReader.dfy` | the two encoders `rollV3` and `BytesReader.Start` |
| `Wire.dfy`, `Interpreter.dfy`, `FrameSizes.dfy`, `Descriptors.dfy` | 42-byte headers, frames, the meaning of a body, frame sizes, and `DataDesc` with its two stale buffers |
| `WriterMachine.dfy`, `Reordering.dfy`, `Merging.dfy`, `FileWriter.dfy` | the reordering writer: on values, over whole runs, the merge, and the mutable class |
| `Transfer.dfy`, `EndToEnd.dfy`, `Pipeline.dfy` | any number of streams in any arrival order; one file from end to end; the same over the classes |
| `Splitting.dfy`, `SplitSync.dfy`, `ParallelPipeline.dfy` | files read in parallel: the sections, their merge, and the same over the classes |
| `Pools.dfy`, `LocalSync.dfy`, `LocalSyncInvariant.dfy`, `LocalSyncTheorems.dfy`, `LocalSyncProgress.dfy` | a local sync as a state machine: job queues, FINs, receiver, writers; safety, and when it can go on |
| `LocalDelivery.dfy`, `LocalFiles.dfy` | what the writers of a local sync get; for given files, when the sync can return and what it leaves |
| `Limits.dfy` | inputs on which a transfer gives a wrong file, fails or hangs |

Bytes are integers below 256, a file is a `seq<byte>`, a channel a sequence of messages. Objects that the code updates
in place are classes with the same fields. `hide` statements only keep definitions out of a proof's way.

## Main results

- `Radler32.Roll`: the O(1) update always yields Adler-32 of the logical window, for every window length (also above
  65521), and no 32-bit operation wraps.
- `RollV3`: for an arbitrary weak-sum list the encoder sends exactly the cut of the greedy scan; `RebuildIsSource`: what
  the receiver makes of it is the source if and only if the scan meets no false hit; `DiffSync`, `DiffTransfer`: the
  same from block sums to destination file, for every arrival order, and the exact condition for the writer to fail.
  Without any assumption on collisions, the destination has the source's length, its literal bytes, and blocks with the
  sums of the matched windows (`RebuiltResembles`).
- `EveryOrder`: any number of streams, any interleaving, any order: the writer rebuilds every stream if all streams can
  be carried out and no End but that of the last stream to finish is overtaken, and returns an error otherwise.
- `SyncReturnsIff`: a local sync can return if and only if there is a diff file, every section of one is longer than its
  block size, and every hit of its scan is a full block of its reference file. In that case it never deadlocks
  (`Progress`) and every run can be completed (`RunsCanComplete`); in any case every run ends (`RunsAreBounded`), a run
  that returns did all the work exactly once (`ReturnedMeansComplete`), and a run that cannot go on has returned, or is
  held up by one of four causes (`HowItEnds`), with everybody waiting for something that is named (`Blocked`).
- `FilesRebuilt`: after every complete local run, under every scheduling, every file's writer holds every section, right
  exactly where the scan met no false hit.
- `ParallelTransfer`: a large file from its jobs to the merged file, with the exact condition for every outcome.

## Where the code does less than intended

Each of these is proved.

- The last, short block of a reference file is hashed over the whole reused buffer (core/block_hash.go:47-64). A source
  that contains those bytes gets an index that the writer cannot read (`ShortBlockCanFail`); no other entry of a
  file's own list fails (`OnlyShortBlockFails`). A writer that fails stays in the receiver's map, so that a local sync
  then never returns (`FailedWriterStays`, `ShortBlockHangs`, with sizes 701 and 1000 `RealShortBlockHangs`).
- Adler-32 is the only block sum: changing three neighbouring bytes of a block by one, minus two and one gives a source
  for which the writer rebuilds the old block, without an error (`CollisionCorrupts`, with sizes 701 and 1400
  `RealCollision`).
- An End taken from the cache while other streams are open makes the writer fail: the inner `continue`
  (workers/writers.go:168) re-enters the loop over cached messages with the same message (`DrainEnd`,
  `OvertakenEndFails`). In a local sync no End is ever overtaken (`WholeIsSafe`).
- A limit is computed as an end position (workers/sender.go:155) and used as a length (workers/readers.go:115): a split
  file is merged to the source only if it is read by two readers (`SplitCoversFile`, `SplitTransfer`).
- Roll readers are spawned whatever the diff list holds, but get FINs only for a non-empty one (workers/sender.go:118,
  workers/sender.go:180): with an empty diff list a local sync never returns (`NoDiffNoReturn`, `ReturnsIff`).
- `rollV3` returns an error for every source of fewer than 700 bytes, whatever the configured block size, and for every
  other one that is not longer than the configured block size (`DeltaStarts`). The sender then returns the error
  instead of sending its FIN (`ErrorIsReturned`, `FailedReaderMeansNoFin`), and a local sync never returns
  (`SmallSourceHangs`, `SixHundredBytesHang`).
- A reader that has returned an error takes no more jobs, and the sender goes on sending (workers/sender.go:253-258): if
  as many jobs as there are readers cannot be read, the last job not counted, the sender never returns either
  (`ManyLossesHang`, `SmallFilesBlockSender`), and only then, if whatever is sent decodes (`SenderReturnsIff`).
- A file in state Meta goes through the delta encoder, but its writer opens no reference file (workers/writers.go:68):
  a local sync never returns if the first block of such a file is known (`MetaHitHangs`).

## Model

| member | source | states |
|---|---|---|
| Adler32.ClosedForm | core/rolling_hash.go:58-62 | the running sums of RFC 1950 are one plus the byte sum, and length plus the position-weighted byte sum, modulo 65521 |
| Adler32.SumHalves | core/rolling_hash.go:78-80 | the upper 16 bits are the window length plus the position-weighted byte sum, the lower 16 bits one plus the byte sum, both modulo 65521 |
| Adler32.Slide | core/rolling_hash.go:103-104 | moving a window by one byte changes both sums of the recomputed Adler-32 by an expression in the old sums and the two bytes |
| Adler32.DropFront | core/rolling_hash.go:103-104 | the byte sum and the position-weighted byte sum of a window in terms of those without its first byte, which counts as often as the window is long |
| Adler32.CollidingSum | core/block_hash.go:61 | three neighbouring bytes changed by one, minus two and one leave the sum of a block as it is |
| RollingHash.HighUpdate | core/rolling_hash.go:104 | the correction term is a multiple of the modulus that exceeds what the leaving byte contributed and is at most 2^25, although only the length modulo 65521 is kept |
| RollingHash.HighAfter | core/rolling_hash.go:104 | the 32-bit expression, none of whose operations wraps, is the recomputed high sum for the full window length |
| RollingHash.Radler32.constructor | core/rolling_hash.go:35-44 | a new digest is that of the empty window |
| RollingHash.Radler32.Reset | core/rolling_hash.go:25-32 | the digest is that of the empty window again |
| RollingHash.Radler32.Sort | core/rolling_hash.go:66-75 | the circular buffer is rotated to start with the oldest byte; logical window and sums stay |
| RollingHash.Radler32.Write | core/rolling_hash.go:47-64 | the logical window is extended at its new end, whatever the rotation, and the digest is its Adler-32 |
| RollingHash.Radler32.Sum32 | core/rolling_hash.go:78-80 | at any time the sum is Adler-32 of the logical window, with its two halves in closed form |
| RollingHash.Radler32.Roll | core/rolling_hash.go:83-106 | the oldest byte leaves and is returned, the new one enters at the other end, the digest stays that of the window, nothing wraps |
| RollingHash.Radler32.GetWindow | core/rolling_hash.go:109-112 | gives the logical window in order without changing it |
| Readers.Section | workers/readers.go:111-117 | exactly the bytes from the offset on, up to the limit or the end of the file |
| Readers.Reader.CopyN | workers/readers.go:127-135 | takes the next n bytes, fewer only at the end, and loses none |
| Readers.Reader.ReadFull | core/block_hash.go:47-51 | fills the front of the buffer and leaves stale bytes behind a short read |
| BlockHash.FileDesc.SetBlockSize | lfs/lfs.go:292-314 | the block size is: 700 for an empty file; the size of a file of fewer than 700 bytes; above 490000 bytes at the default setting the nearest integer to the square root, or 131072 if that is smaller; otherwise the configured size, or 700 if that is 0 |
| BlockHash.BlockSizeIsRight | lfs/lfs.go:292-314 | the function on values meets that description, for every size and configuration |
| BlockHash.BlockSizeUnique | lfs/lfs.go:292-314 | no other number does |
| BlockHash.RoundedSqrt | lfs/lfs.go:298-299 | the integer nearest to the square root |
| BlockHash.FloatRootRounds | lfs/lfs.go:298-304 | up to the cap, rounding any floating-point root with a relative error that 64-bit arithmetic keeps gives that integer, for every size |
| BlockHash.BlockSizeIsRoot | lfs/lfs.go:296-307 | at the default setting a file above 490000 bytes gets its rounded floating-point root, cut at 131072 |
| BlockHash.NeverZero | lfs/lfs.go:311-313 | no file gets block size zero, and none a negative one unless it is configured |
| BlockHash.DefaultBlockSize | lfs/lfs.go:292-314 | with the default 700 the block size is positive and at most 131072, and unless the cap cuts it a file of that size has at most BlockSize + 1 sums |
| BlockHash.Blocks | core/block_hash.go:40-43 | the table length is the number of blocks that just cover the file |
| BlockHash.Exactly | core/block_hash.go:40-43 | no other length has that property |
| BlockHash.BlockStarts | core/block_hash.go:47-64 | an index is below the table length exactly if its block starts inside the file, so the loop never leaves the list and every index seeks inside the file |
| BlockHash.Refill | core/block_hash.go:47-61 | reading a block over the old contents leaves the block, or the tail followed by the suffix of the block before it (zeros if there is none) |
| BlockHash.LoopStep | core/block_hash.go:47-64 | one pass of the block loop keeps: stored sums are right, the unread rest and the stale buffer are those of the next block |
| BlockHash.HashNext | core/block_hash.go:47-61 | reads the next block into the reused buffer and hashes all of it; nothing is left exactly when all entries are there |
| BlockHash.FullBlockEntry | core/block_hash.go:61-63 | every full block has an entry, which is the block's own Adler-32 |
| BlockHash.AddChecksums | core/block_hash.go:16-73 | fills a list of exactly one sum per block, the short last one over its tail followed by the stale suffix of the block before it |
| GreedyScan.TableLookup | workers/readers.go:119-123 | a sum is found exactly if it is listed, and the index found is the last one with that sum |
| GreedyScan.ScanDescribes | workers/readers.go:175-285 | the instructions of the greedy scan spell out the source: literals are its bytes in order, references stand for windows whose sum is in the table |
| GreedyScan.ScanIsGreedy | workers/readers.go:147-285 | at every offset the scan reaches it sends a reference exactly if the window there is tested and its sum is in the table, and then the table's index; otherwise the byte |
| GreedyScan.Conservation | workers/readers.go:186-273 | literals plus block-sized references add up to the length of the source |
| GreedyScan.ApplyConcat | workers/writers.go:300-334 | carrying out two instruction lists one behind the other concatenates results and fails if either fails |
| GreedyScan.RebuildSucceeds | workers/writers.go:316-334 | the rebuilt file exists exactly if every hit names a full block of the reference file, and then has the source's length |
| GreedyScan.RebuildIsSource | workers/writers.go:316-334 | the rebuilt file is the source if and only if no scanned window is a false hit |
| GreedyScan.FirstPlaced | workers/writers.go:300-334 | the first instruction is honoured at the start of the output, and the others in what follows it |
| GreedyScan.RebuiltAt | workers/writers.go:300-334 | with any table: every literal is found in the output at the source's offset, every reference at the offset of the window it was matched with |
| MessageCuts.CutsFlatten | workers/readers.go:150-173 | cutting into messages neither drops, repeats nor reorders instructions |
| MessageCuts.CutsWellCut | workers/readers.go:150-173 | every message but the last ends in a literal run of exactly BlockSize + 1, and no literal run exceeds 2 * BlockSize |
| FrameSizes.LastFrame | lfs/lfs.go:165-183 | a literal run at the end of a message is one data frame at its end |
| FrameSizes.MessageFrames | workers/readers.go:150-173 | every message but the last ends in a data frame of exactly BlockSize + 1 bytes, and no data frame before End exceeds 2 * BlockSize |
| MessageCuts.MessageCount | workers/readers.go:150-173 | there are at most size / (BlockSize + 1) + 1 messages |
| Wire.BigEndianRoundTrip | lfs/lfs.go:174 | fixed-width big-endian numbers read back unchanged |
| Wire.BigEndianDigit | lfs/lfs.go:174 | byte i of an n-byte number is its base-256 digit n - 1 - i: the most significant byte comes first |
| Wire.Int64RoundTrip | lfs/lfs.go:73-80 | an integer of any size reads back as the int64 it wraps to |
| Wire.HeaderRoundTrip | lfs/lfs.go:73-80 | a 42-byte header reads back unchanged up to the width of its fields, whatever follows it |
| Wire.HeaderLayout | lfs/lfs.go:44-80 | in the 42 bytes of a header the flag is at 0-1, the file index at 2-9, the offset at 10-17, the sequence at 18-25, the stream count at 26-33, the length at 34-41, each integer with its most significant byte first |
| Wire.HeaderOf | lfs/lfs.go:73-80 | whatever 42 bytes are parsed, printing what was parsed gives them back |
| Wire.IndexesRoundTrip | lfs/lfs.go:196 | index arrays read back unchanged, whatever follows |
| Wire.ParseFrame | workers/writers.go:287-315 | reading a frame uses up input and finds the end of the body exactly at its end |
| Wire.FrameRoundTrip | workers/writers.go:287-315 | a printed frame is read back as itself, with what follows it left over |
| Wire.FramesRoundTrip | workers/writers.go:287-340 | printing and parsing is the identity on every frame list |
| Wire.FrameLayout | lfs/lfs.go:165-203 | a data frame starts with 0,0, an index frame with 0,1, bytes 2-33 are zero, the length stands at 34-41, and the bytes or 8-byte indexes follow |
| Wire.BodyLayout | lfs/lfs.go:264-274 | a body is its frames one behind the other; an End header is 0,2 and 40 zero bytes |
| Interpreter.GroupMeaning | lfs/lfs.go:137-163 | grouping instructions into alternating frames loses nothing and keeps their order |
| Interpreter.GroupAlternates | lfs/lfs.go:137-163 | data and index frames alternate, and none is empty |
| Interpreter.DecodeFrames | workers/writers.go:282-342 | decoding a printed frame list carries out its instructions, then decodes the rest |
| Interpreter.DecodeBody | workers/writers.go:282-342 | decoding a message carries out exactly its instructions and reports End exactly for the last message, although the last frame is repeated behind the End header |
| Interpreter.MalformedFails | workers/writers.go:282-342 | an incomplete header, an unknown kind, more data announced than there is, or a number of indexes that is negative or more than there are, is an error; an End header ends the message, whatever follows |
| Interpreter.KindOf | workers/writers.go:296-337 | the first two bytes of a header are its kind: 0 and the kind, or none that is known |
| Descriptors.PacketRoundTrip | lfs/lfs.go:228-262 | Deserialize after Serialize gives back file index, offset, sequence, stream count and body |
| Descriptors.PacketLayout | lfs/lfs.go:228-245 | a message is its global header, with the length of the body, and the body |
| Descriptors.DataDesc.constructor | lfs/lfs.go:91-103 | a new descriptor is empty, in data mode |
| Descriptors.Deserialize | lfs/lfs.go:247-262 | takes the fields from the global header and the body from behind it; input shorter than a header is an error |
| Descriptors.DataDesc.Flush | lfs/lfs.go:165-203 | appends the active buffer as a frame, leaves it as it is, and clears the other mode's buffer |
| Descriptors.DataDesc.WriteByte | lfs/lfs.go:137-151 | appends one literal to the instructions held, in both readings: meaning and frame grouping, with either buffer stale |
| Descriptors.DataDesc.WriteIndex | lfs/lfs.go:153-163 | appends one reference in the same sense, and leaves the stale data buffer |
| Descriptors.DataDesc.Write | lfs/lfs.go:121-135 | appends a data frame behind what was flushed |
| Descriptors.DataDesc.Len | lfs/lfs.go:205-210 | the length of the data buffer, stale or not |
| Descriptors.DataDesc.MarkAsLast | lfs/lfs.go:264-274 | the body gets everything written and an End header, and the active buffer stays to be flushed again |
| Descriptors.DataDesc.Serialize | lfs/lfs.go:216-245 | after any interleaving of WriteByte and WriteIndex the bytes are the canonical body of exactly those instructions, with the repeated frame after MarkAsLast; every byte lies where the format puts it |
| RollReaders.ScanHits | workers/readers.go:175-227 | a match moves the loop to the next window, or to the tail, of the same greedy scan, messages and counters included |
| RollReaders.ScanMisses | workers/readers.go:228-261 | a miss moves the loop one byte on, or to the tail, of the same greedy scan |
| RollReaders.ScanCuts | workers/readers.go:150-173 | sending a message changes nothing of what remains to be sent |
| RollReaders.RollReader.BuildTable | workers/readers.go:119-123 | builds the table in which later blocks replace earlier ones |
| RollReaders.RollReader.Open | workers/readers.go:125-139 | window, buffer and unread rest are the section; the window is full exactly if the section has a block |
| RollReaders.RollReader.Match | workers/readers.go:175-227 | writes the index and continues exactly if strictly more than a block is left; window, buffer and rest stay the unread source |
| RollReaders.RollReader.Miss | workers/readers.go:228-261 | continues exactly if a byte is left; then writes the oldest byte, and window, buffer and rest lose exactly it |
| RollReaders.RollReader.Step | workers/readers.go:147-263 | one pass keeps the refinement of the scan and a full window, and strictly shortens buffer and rest, or ends with only the tail left to write |
| RollReaders.RollReader.Loop | workers/readers.go:147-263 | the loop ends, having sent all messages of the cut but the last |
| RollReaders.RollReader.WriteLiterals | workers/readers.go:268-274 | writes one literal per byte and counts them |
| RollReaders.RollReader.Tail | workers/readers.go:265-291 | window and buffer end up as literals in front of the End header |
| RollReaders.RollReader.RollV3 | workers/readers.go:93-301 | the messages sent are exactly the cut of the greedy scan, the counters count its literals, references and messages; the exact outcome for zero streams, sections of at most a block, and block size zero |
| BytesReaders.ChunksFlatten | workers/readers.go:357-402 | the chunks are the file |
| BytesReaders.ChunkCount | workers/readers.go:357-402 | there are ceil(size / BlockSize) chunks |
| BytesReaders.ChunkSizes | workers/readers.go:357-402 | every chunk but the last has exactly BlockSize bytes, and none is empty |
| BytesReaders.ChunkOpsFlatten | workers/readers.go:357-402 | the messages hold the file's bytes as literals, in order |
| BytesReaders.BytesReader.Pack | workers/readers.go:378-383 | a chunk's message has the body of the chunk's literals |
| BytesReaders.BytesReader.Last | workers/readers.go:367-371 | the last message has no instructions and the End header |
| BytesReaders.BytesReader.SendChunks | workers/readers.go:355-402 | one message per chunk and an End message, numbered consecutively from 0 |
| BytesReaders.BytesReader.SendFile | workers/readers.go:336-402 | the same for the section of a job; block size zero is an error |
| WriterMachine.DrainFrom | workers/writers.go:147-177 | the loop over cached messages writes up to the first missing number and fails exactly for an undecodable message or an End while other streams are open |
| WriterMachine.DrainEnd | workers/writers.go:152-170 | an End taken from the cache finishes the writer if it is the last open stream's, and otherwise makes it fail |
| WriterMachine.Decodable | workers/writers.go:282-342 | how many messages of a stream decode before the first that does not |
| WriterMachine.HandleEarly | workers/writers.go:178-184 | a message before its turn is cached and changes nothing else |
| WriterMachine.HandleNext | workers/writers.go:118-177 | a message whose turn it is is written with everything cached behind it, with the exact cases of failure and end |
| WriterMachine.HandleOne | workers/writers.go:94-184 | one message of a stream, whatever came before: the writer's state stays "written prefix plus cached rest" of what was received, with the exact cases in which the stream ends, the loop ends or the writer fails |
| WriterMachine.InOrderStep | workers/writers.go:117-145 | of a stream that arrives in order every message that decodes is written at once, the last one ends it, and the first that does not decode makes the writer fail |
| Reordering.CountNext | workers/writers.go:131-137 | the stream counter drops exactly when a stream is complete and reaches zero exactly with the last message |
| Reordering.StepResult | workers/writers.go:94-194 | message by message, for any number of streams: received is written prefix plus cached rest of every stream, and no temporary file gets bytes of another stream |
| Reordering.CrashHasCause | workers/writers.go:139-171 | the writer only fails for a message that does not decode or an overtaken End |
| Reordering.CompleteIsSmooth | workers/writers.go:131-137 | the writer only completes if every message decoded and no End but the last stream's was overtaken |
| Reordering.AnyArrivalOrder | workers/writers.go:87-194 | over every interleaving of every permutation: completion with every temporary file equal to its own stream's decoding, or an error, with the exact condition |
| Reordering.OneStreamAnyOrder | workers/writers.go:87-194 | a single stream is completed under every permutation of its messages |
| Merging.SortOffsets | workers/writers.go:213-222 | the offsets in strictly increasing order |
| Merging.Collect | workers/writers.go:213-219 | ranging over the map lists every offset once, in any order |
| Merging.ListsUnique | workers/writers.go:213-222 | there is one sorted list of a set of offsets, so map order does not matter |
| Merging.ConcatenationUnique | workers/writers.go:226-259 | the merged file is determined by the temporary files |
| Merging.DestinationUnique | workers/writers.go:201-263 | the destination file is determined by the temporary files, renamed or merged |
| FileWriters.TmpFile.Append | workers/writers.go:302-306 | appends unless the file is closed |
| FileWriters.TmpFile.Close | workers/writers.go:123-126 | closing a second time is an error |
| FileWriters.FileWriter.constructor | workers/writers.go:47-85 | a writer without temporary files; only for a file in state Diff it has a reference file, the one that is present |
| FileWriters.OpenedFor | workers/writers.go:67-85 | a reference file is opened exactly if the state is Diff |
| FileWriters.FileWriter.CopyBlocks | workers/writers.go:309-334 | copies the named blocks in order, and fails exactly if one of them is not a full block |
| FileWriters.FileWriter.WriteFrame | workers/writers.go:300-334 | carries out one data or index frame |
| FileWriters.FileWriter.WriteToFile | workers/writers.go:282-342 | appends what the body decodes to, reports End, or fails, as decoding says |
| FileWriters.FileWriter.DrainCached | workers/writers.go:147-177 | the loop over cached messages does what the state machine on values does |
| FileWriters.FileWriter.HandleMessage | workers/writers.go:117-184 | so does the handling of one message |
| FileWriters.FileWriter.OnMessage | workers/writers.go:94-188 | so does the writer, and all other streams keep their files |
| FileWriters.FileWriter.CopyAll | workers/writers.go:224-259 | the temporary files one behind the other |
| FileWriters.FileWriter.Rebuild | workers/writers.go:201-263 | a single temporary file has to be that of offset 0; several are concatenated by offset |
| FileWriters.FileWriter.Start | workers/writers.go:61-279 | after any sequence of messages: waiting, failed, or finished with the destination file the state machine determines |
| FileWriters.DrainStep | workers/writers.go:152-177 | one pass of the loop over cached messages, the pass after `continue` included |
| Transfer.StreamDecodes | workers/writers.go:282-342 | the bodies of a stream decode, one after the other, to what its instructions rebuild, and exactly the last one ends it |
| Transfer.FullyDecodable | workers/writers.go:282-342 | all messages of a stream decode exactly if its instructions can be carried out |
| Transfer.ArrivalsDeliver | lfs/lfs.go:216-262 | serialized and deserialized messages arrive with their offset, number and body |
| Transfer.EveryOrder | workers/writers.go:87-194 | for every arrival order of the serialized messages of any number of streams: all streams rebuilt, exactly if each can be and no End but that of the last stream to finish is overtaken; otherwise an error |
| EndToEnd.ScanFits | workers/readers.go:182-186 | all indexes sent are below the table length |
| EndToEnd.DiffSync | workers/readers.go:93-301 | for an arbitrary weak list, reference file and arrival order: the writer ends with the source if and only if there is no false hit, with a file of the source's length if every hit is a full block, and fails otherwise |
| EndToEnd.OnlyShortBlockFails | core/block_hash.go:61-63 | of a file's own weak list only the last entry of a file with a short last block names no full block |
| EndToEnd.DeltaParts | workers/readers.go:93-301 | the messages of a delta rebuild to a file of the source's length exactly if every hit is a full block, and to the source exactly if there is no false hit |
| EndToEnd.WholeParts | workers/readers.go:357-402 | the messages of a whole file rebuild to it |
| EndToEnd.MatchedWindowsHaveEqualSums | workers/writers.go:316-334 | without any assumption on collisions, a copied block has the Adler-32 of the source's window |
| EndToEnd.RebuiltResembles | workers/writers.go:300-334 | without any assumption on collisions, a rebuilt file has the source's length, all its literal bytes, and blocks with the sums of all matched windows, and these cover the source |
| EndToEnd.WholeBlocksNeverFail | workers/writers.go:316-334 | a reference file of whole blocks never makes the writer fail |
| EndToEnd.NoCollisionNoFalseHit | workers/readers.go:175 | if no window of the source collides with a table entry, the scan meets no false hit |
| EndToEnd.MissingSync | workers/readers.go:357-402 | for every file, block size and arrival order, a missing file is rebuilt exactly, from ceil(size / BlockSize) + 1 messages |
| Pipeline.SerializeAll | workers/receiver.go:575 | message by message the wire form of the stream |
| Pipeline.DeserializeAll | workers/receiver.go:579 | what the receiver unpacks, in arrival order |
| Pipeline.Deliver | workers/receiver.go:571-615 | a stream's messages through wire and writer, for a file in a given state: the outcome of the state machine on them |
| Pipeline.DiffTransfer | workers/sender.go:144-167 | the jobs of a file that is not split, AddChecksums, rollV3, Serialize, Deserialize and the writer, over the mutable objects: the destination is the source if and only if there is no false hit; exactly when it fails; what holds of the destination in any case |
| Pipeline.MissingTransfer | workers/readers.go:336-402 | the job of a missing file, BytesReader and writer over the mutable objects: the destination is the source |
| Limits.ShortBlockCanFail | core/block_hash.go:47-64 | every reference file with a short last block has a source on which the writer fails |
| Limits.CollisionCorrupts | core/block_hash.go:61-63 | from every full block that is the last with its sum one gets a source for which the writer rebuilds the old block, in every arrival order |
| Limits.RealCollision | core/block_hash.go:61-63 | such a reference file of 1400 bytes and source of 701, with the block size they get |
| Limits.OvertakenEndFails | workers/writers.go:155-169 | two streams that can be carried out, in an order in which an End is overtaken: the writer fails |
| Limits.DeltaStarts | lfs/lfs.go:292-314 | for every positive configured block size the encoder starts exactly for files of at least 700 bytes that are longer than the configured size |
| Limits.SmallSourceHangs | workers/sender.go:261-264 | with a diff file of fewer than 700 bytes, whatever the configuration and the other files, a local sync never returns |
| Limits.SmallFilesBlockSender | workers/sender.go:141-192 | with more diff files of fewer than 700 bytes than roll readers, and no other diff files, not even the sender returns, in any run |
| Limits.SixHundredBytesHang | workers/readers.go:127-131 | for example with 600 new bytes for 800 old ones |
| Limits.ShortBlockHangs | workers/writers.go:316-330 | every reference file with a short last block has a source with which a local sync never returns |
| Limits.RealShortBlockHangs | workers/writers.go:316-330 | for example 1000 old bytes and 701 new ones, with the block size they get |
| Limits.MetaHitHangs | workers/writers.go:67-85 | with a file in state Meta whose first block is known a local sync never returns |
| Splitting.Jobs | workers/sender.go:144-167 | a file of at most 536870912 bytes, or any file with one reader, gets the single job (0, size); a larger one gets a chunk job per reader, in order |
| Splitting.JobsByNumber | workers/sender.go:146-161 | the i-th job of a large file starts at i times the chunk size, and its limit is the end of that chunk |
| Splitting.SmallFileIsWhole | workers/sender.go:163-166 | the sections of a file that is not split are the whole file, at offset 0 |
| Splitting.MissingJob | workers/sender.go:169-174 | a missing file gets one job for all of it |
| Splitting.SectionLength | workers/readers.go:113-115 | a chunk's section runs past the chunk as far as the file goes |
| Splitting.RestLength | workers/readers.go:113-115 | the remaining sections cover the remaining file, with an overlap if a middle chunk is among them |
| Splitting.SplitCoversFile | workers/sender.go:146-161 | the sections concatenate to the file if and only if there are two readers |
| SplitSync.ConcatOfSections | workers/writers.go:226-259 | merging by offset gives the sections in job order |
| SplitSync.SplitDestination | workers/writers.go:201-263 | the merged file is the source if and only if there are two readers and every section was rebuilt right |
| SplitSync.SectionsRebuilt | workers/writers.go:87-194 | for every arrival order: all sections rebuilt with their lengths, exactly if every hit is a full block and no End is overtaken, and right exactly if there is no false hit; otherwise an error |
| SplitSync.SplitTransfer | workers/sender.go:146-161 | for the jobs of a file of more than 512 MiB and every arrival order: when the writer completes, and that the merged file is then the source if and only if there are two readers and no false hits |
| ParallelPipeline.ReadJob | workers/readers.go:93-301 | the serialized messages of one reader's section |
| ParallelPipeline.ReadAll | workers/sender.go:146-161 | those of all jobs, by offset |
| ParallelPipeline.UnpackAll | workers/receiver.go:579 | what the receiver unpacks in the order of arrival |
| ParallelPipeline.ParallelTransfer | workers/sender.go:144-167 | AddChecksums, the jobs, rollV3 on each section, the wire, the writer and the merge, over the mutable objects: the exact condition for success and for the destination to be the source |
| Pools.TakeKeeps | workers/readers.go:54-80 | taking a job, also one over which the reader returns an error, or a FIN keeps the pool's accounting |
| Pools.EmitKeeps | workers/readers.go:56-63 | sending a message keeps it; only the job's reader moves the job on |
| Pools.PoolAccounting | workers/sender.go:177-192 | FINs still to be taken are as many as readers that took none; once all have left on a FIN, every job was taken once and finished, and the queue is empty |
| Pools.PoolReturned | workers/readers.go:60-63 | once all readers have returned, with or without an error, every job that was taken is finished or its reader failed over it |
| Pools.NoFinNoExit | workers/sender.go:180 | without FINs no reader leaves |
| Pools.SentMeansFewLosses | workers/readers.go:60-63 | everything is sent to a pool only if fewer jobs than readers, the last job not counted, cannot be read |
| Pools.AllLostMeansManyLosses | workers/readers.go:60-63 | if all readers have failed before the last job was taken, at least as many other jobs cannot be read |
| LocalSyncInvariant.NoDiffNoReturn | workers/sender.go:118-180 | without diff files no roll reader ever returns, with or without an error |
| LocalSyncInvariant.AllProcessed | workers/sender.go:250-264 | when all readers have returned without an error, every job was processed by exactly one of them, the queues are empty, and the diff list was not |
| LocalSyncInvariant.TakesRightly | workers/writers.go:117-145 | a writer fails over a message that does not decode, and over nothing else |
| LocalSyncInvariant.OutstandingMeansLive | workers/receiver.go:590-615 | while messages of a file are outstanding its writer is in the map with open streams, or there is none yet |
| LocalSyncInvariant.HeadInOrder | workers/writers.go:94-118 | what a writer takes next is the next message of its stream |
| LocalSyncInvariant.StepKeepsInv | workers/receiver.go:545-627 | every step of sender, readers, receiver and writers keeps the invariant |
| LocalSyncInvariant.RunKeepsInv | cmd/local.go:31-71 | it holds after every run |
| LocalSyncTheorems.FinsMatchReaders | workers/sender.go:177-192 | in every run and pool that gets FINs: FINs to be consumed equal readers that took none |
| LocalSyncTheorems.FeedOrder | workers/sender.go:141-192 | in every run: diff jobs before missing-file jobs, these before the roll readers' FINs, those before the bytes readers' FINs; each queue holds what was sent last, jobs in the order of the lists |
| LocalSyncTheorems.ChannelBounds | cmd/local.go:50-51 | in every run: no queue or channel holds more than `io_concurrency` items and no inbox more than the file has streams; each pool that is spawned has `io_concurrency` readers |
| LocalSyncTheorems.ReadersReturnedMeansProcessed | workers/sender.go:261-264 | in every run: when the readers have returned, every job that was taken was taken once and finished, or failed; without an error that is every job |
| LocalSyncTheorems.FinIsLast | workers/sender.go:268-269 | once the FIN is received, every message of every job was sent and handed on, and none is on its way |
| LocalSyncTheorems.OneWriterPerFile | workers/receiver.go:590-615 | in every run a file gets at most one writer, and no message meets one that has finished |
| LocalSyncTheorems.EndedMeansWritten | workers/writers.go:131-137 | a writer whose streams have ended has written everything of its file, all of which decoded |
| LocalSyncTheorems.HealthyNeverFails | workers/writers.go:139-143 | a writer fails only over a job that cannot be carried out |
| LocalSyncTheorems.HealthyNeverAborts | workers/sender.go:261-264 | the sender returns an error only over a job that cannot be read |
| LocalSyncTheorems.FinOrError | workers/sender.go:257-276 | in every run: FIN and error return exclude each other; either needs everything sent and all readers returned, the FIN all of them without an error, the error return one with an error |
| LocalSyncTheorems.ErrorIsReturned | workers/sender.go:261-264 | in every run: once everything was sent and all readers have returned, one with an error, the sender has returned the error or does so in its next step |
| LocalSyncTheorems.FinIsSent | workers/sender.go:265-272 | in every run: once they have all returned without an error, the FIN was sent or is sent in the next step, as soon as the receiver's channel has room |
| LocalSyncTheorems.ManyLossesHang | workers/sender.go:141-192 | in every run: if as many jobs of a pool as it has readers cannot be read, the last one not counted, the sender neither sends its FIN nor returns an error, and the receiver does not return |
| LocalSyncProgress.Progress | workers/receiver.go:523-637 | no deadlock: with a non-empty diff list of jobs that can be carried out, some step is possible until the receiver has returned |
| LocalSyncTheorems.StepCounts | workers/receiver.go:545-627 | every step does one unit of work that is never undone |
| LocalSyncTheorems.ReturnedMeansComplete | workers/receiver.go:629-636 | the receiver returns only with everything read, sent, handed on, decoded and written, one writer per file, all removed, after a number of steps given by the numbers of jobs, readers, messages and files |
| LocalSyncTheorems.RunsAreBounded | workers/receiver.go:523-637 | no run has more than `Total` steps |
| LocalSyncProgress.RunsCanComplete | workers/receiver.go:523-637 | every run with a non-empty diff list of jobs that can be carried out can be continued until the receiver returns |
| LocalSyncProgress.ReturnsIff | workers/sender.go:113-276 | a local sync can return if and only if the diff list is not empty, every reader can read its job and every writer can decode its messages |
| LocalSyncTheorems.FailedReaderMeansNoFin | workers/sender.go:261-264 | in every run: with a job that cannot be read the sender sends no FIN |
| LocalSyncTheorems.FailedWriterStays | workers/receiver.go:527-542 | in every run: a writer that failed stays in the map with open streams, and the receiver in its loop |
| LocalSyncTheorems.FailsExactly | workers/writers.go:139-143 | in every run: a writer has failed exactly if it has taken a message that does not decode, and takes none of that stream after it |
| LocalSyncProgress.Blocked | workers/receiver.go:545-627 | in every run that cannot go on, who waits for what: a busy reader for room in the receiver's full channel, an idle one for an item in its empty queue, the sender for room in the full queue whose turn it is or for its readers, the receiver for a message or for room in a full inbox, a writer that has not failed for a message |
| LocalSyncProgress.StuckMeans | workers/sender.go:113-276 | with a non-empty diff list and before the return: nothing can happen only if the sender has returned an error, or a writer has failed, or all readers of a pool have failed and its queue is full |
| LocalSyncProgress.HowItEnds | workers/receiver.go:523-637 | in every run that cannot go on: the receiver has returned if and only if the diff list is not empty and every job can be carried out; otherwise which of these causes holds it up |
| LocalSyncProgress.SenderReturnsIff | workers/sender.go:253-276 | if whatever is sent decodes, in every run of a sync with diff files that cannot go on: the sender has returned, behind its FIN or with an error, if and only if there are fewer such jobs |
| LocalDelivery.TakenInOrder | workers/writers.go:94-118 | over a run, a writer takes of each of its streams exactly the messages the run adds, in order |
| LocalDelivery.WholeIsSafe | workers/writers.go:117-145 | what a writer takes in a complete local run overtakes no End |
| LocalDelivery.HeaderCountsStreams | workers/receiver.go:600-609 | the stream count the writer starts with is the number of its streams |
| LocalDelivery.LocalRunRebuilds | workers/receiver.go:523-637 | in every complete run, under every scheduling, every file's writer gets every message of its streams once, and ends with all of them rebuilt |
| LocalFiles.TaskParts | workers/readers.go:93-301 | what the messages of a task rebuild to, and exactly when |
| LocalFiles.TaskOk | workers/readers.go:127-139 | a task can be carried out exactly if it is read whole, or is longer than its block size and every hit is a full block |
| LocalFiles.SentOfExists | workers/sender.go:141-175 | every file of a sync has streams as `FilesRebuilt` speaks of them: one per task of the file, with the messages of its reader |
| LocalFiles.SyncReturnsIff | workers/receiver.go:523-637 | a local sync of given files can return if and only if there is a diff file and every task can be carried out |
| LocalFiles.FilesRebuilt | workers/receiver.go:523-637 | in every complete run every file's writer ends with a stretch of the right length for every section, which is the section exactly if it was read whole or its scan met no false hit |

## Left out

- AddChecksums: only for a positive block size, which is what callers have (`NeverZero`); with zero the read loop never ends (a full read of nothing is neither an error nor the end of the file), with a negative one the allocation panics. SHA-1 is left out.
- RollV3: block sizes are not negative; a negative one panics.
- SendFile: a zero stream count panics in the code and is excluded; reads and sends never fail.
- Serialize: called once per message, as the pipeline does; a second call would repeat the last frame again.
- Append: a write to a closed temporary file fails at once; the code's buffered writer may report it only at the second close, which fails in any case.
- FileWriter: caches message bodies instead of descriptor objects; temporary files are byte sequences; names, renaming, the `.ref` file and its removal are abstracted as success.
- LocalSync: `io_concurrency` is positive; a job is its number of messages and how many of them decode, which `LocalFiles` computes from the files. A reader that cannot read its job returns as it takes it, since it sends nothing. Other errors of readers and writers are I/O errors.
- The INI and SUM exchange before a sync: the diff and missing lists are given.
- Timeouts, context cancellation and I/O errors: operating-system effects, abstracted as success.
- The HTTP sender and receiver: their writer lookup and insertion are locked separately, so uniqueness of writers is claimed for the local receiver only.
- Deciding the state of a file, directory listing, permissions, modification times: one-branch code without further structure.
- The monitor mode and fsnotify: unfinished in the repository.
- Gzip, JSON, command line, configuration and logging: library calls.
