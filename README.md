# AAC front end of the faad codec plugin, modelled in Dafny

This project models the AAC front end in `faad.c`. It covers:

- the incremental MP4/ISO-BMFF header reader `read_mp4_header`;
- the chunk table it builds from the `stsc` and `stco` boxes;
- the descriptor-length decoder `mp4_desc_length`;
- one tick of the decoder thread, `faad_decode`;
- the state reset in `faad_open` and `faad_close`.

Shared library loading is not modelled. The form of the model follows the C code.

- **Descriptor** (`descriptor.dfy`). `mp4_desc_length` is a method with the source's do-while loop. It is proved against a pure definition of the expandable-size field of ISO/IEC 14496-1, section 8.3.3: 1 to 4 bytes with 7 payload bits each.
- **ChunkTable** (`chunktable.dfy`). The table builder is an `array<Chunk>` filled in place by the source's nested loops. It is proved equal to the reference table `Build`, which is defined from the first sample of each chunk (`FirstSample`). In the source the first sample of a chunk counts every sample before it. For the runs (1,10),(5,20) over eight chunks this gives 0, 10, 20, 30, 40, 60, 80, 100, which `ExampleTable` proves.
- **Boxes** (`boxes.dfy`). One pass of the header loop is the function `BoxStep` over the parser state and the buffered bytes. The whole call is `Parse`. The parser state `Mp4` includes:
  - `pos` and `consume`;
  - the function-static track counters `trak` and `play`;
  - the stashed `stsc` and the chunk table;
  - `sample` and `nextchunk`;
  - the reported rate and channels.
- **Buffers** (`buffers.dfy`):
  - The input ring is the class `StreamBuffer`, with its storage, `readp` and `used`. It also provides `_buf_cont_read` and `_buf_inc_readp`.
  - The output ring is the class `OutputBuffer`. It is an `array<int>` of 32-bit slots, with `writep` and the free space. Ghost fields count the storage in frames, so cursors move by whole frames.
- **Driver** (`driver.dfy`) holds the pure parts of a tick:
  - the ADTS sync test;
  - the input handed to the engine, including the 2048-byte stitched copy;
  - the chunk-boundary reconcile;
  - the conversion of 24-bit samples into output slots.
- **FaadCodec** (`faad.dfy`). The plugin context `struct faad` is the class `Faad`. The function-static `samplerate` and `channels` of `faad_decode` and `trak` and `play` of `read_mp4_header` are fields of this class. The chunk table is built in an array and stored in the context as a value. Each method matches one step of the C code. Each is proved against the functions above:
  - `ReadMp4Header` is a loop whose invariant says the rest of the call still leads to `Parse`'s outcome.
  - `Decode` is one tick.
  - `WritePcm` is the output loop, writing pieces of contiguous write space.
- **Engine** (`engine.dfy`). The libfaad engine (`NeAACDecInit`, `NeAACDecInit2`, `NeAACDecDecode`) is a value of type `Engine` holding three functions. The only assumed constraint is `Behaves`. It says four things. A call claims no more bytes than it was handed. A decode's sample count is at most the length of its sample buffer. A decode with samples has a channel count of at least 1 and at most 2048 frames. Every sample is a 24-bit value.

One behaviour of the code is kept as written. An `mdat` that leaves a skip pending still returns 1, so the same tick goes on to a decode call.

## Model

| member | source | states |
|---|---|---|
| Common.Be32 | faad.c:98 | the length field of a box header, read big-endian from four bytes, is below 2^32 |
| Descriptor.Mp4DescLength | faad.c:76-89 | the do-while loop returns the value of the field at p and leaves the pointer exactly past its last byte |
| Descriptor.DescSizeShape | faad.c:81-86 | the field is 1 to 4 bytes long; every byte before the last has bit 7 set, and a field shorter than 4 bytes ends at the first byte with bit 7 clear |
| Descriptor.DescValueBound | faad.c:85 | the decoded length is below 2^28, and a single byte below 0x80 decodes to itself in 1 byte |
| ChunkTable.StcoOffsets | faad.c:149-161 | one offset per stco entry, as many as the entry count at byte 12 |
| ChunkTable.StashRuns | faad.c:166-172 | one (first chunk, samples per chunk) run per stsc entry, as many as the stashed entry count |
| ChunkTable.RunOf | faad.c:170-184 | the run a chunk falls in is the last run whose first chunk is at or before it; every later run starts past it |
| ChunkTable.FillRun | faad.c:174-183 | one for loop stores consecutive first samples base, base + perChunk, ... in chunks from..to-1 only, and returns the counter past them |
| ChunkTable.FillRunOf | faad.c:174-183 | filling the chunks of one run takes the table, part way through the walk, up to `to` chunks done |
| ChunkTable.FillRunExtends | faad.c:174-183 | filling run j from its first chunk with its base gives exactly the table with those chunks' reference first samples |
| ChunkTable.BeforeFirstRun | faad.c:173 | chunks before the first run's first chunk keep first sample 0 |
| ChunkTable.WalkRun | faad.c:170-188 | one pass of the stsc walk keeps the walk's invariant: the previous run, the counter, and the table up to the chunks done |
| ChunkTable.FillFirstSamples | faad.c:165-191 | the stsc walk turns the zeroed table into the reference table for the stashed runs |
| ChunkTable.BuildChunkTable | faad.c:148-191 | a fresh array of entries + 1 slots holding exactly the reference table `Build` for the stco offsets and the stashed runs, if any |
| ChunkTable.BuildShape | faad.c:151-163 | the table has entries + 1 slots, the last is (sample 0, offset 0), the offsets are stco's, and without a stash every first sample is 0 |
| ChunkTable.FirstSampleInRun | faad.c:174-183 | chunk i of run (f, s) starts at the run's base + (i + 1 - f) * s |
| ChunkTable.FirstSampleWithinRun | faad.c:174-183 | first samples do not decrease inside a run |
| ChunkTable.FirstSampleBelowNextRun | faad.c:174-177 | no chunk of a run starts past the base of the next run |
| ChunkTable.RunBaseBelowFirstSample | faad.c:174-183 | no chunk of a run starts before the run's base |
| ChunkTable.RunBaseMonotone | faad.c:167-183 | run bases do not decrease along ascending runs |
| ChunkTable.FirstSampleMonotone | faad.c:165-191 | first samples never decrease along the table, whichever runs the chunks fall in |
| ChunkTable.ExampleTable | faad.c:165-191 | runs (1,10),(5,20) over eight chunks give first samples 0,10,20,30,40,60,80,100 at offsets 8 to 64, then the sentinel (0,0) |
| Boxes.EsdsScan | faad.c:115-128 | when the walk reaches a DecSpecificInfo, the config bytes it names lie inside the buffered bytes |
| Boxes.ReadEsds | faad.c:115-128 | the pointer walk over ES_Descriptor and DecoderConfigDescriptor finds what EsdsScan finds |
| Boxes.Finish | faad.c:229-243 | the consuming tail never moves past the buffered bytes and moves pos by what it consumes |
| Boxes.EsdsStep | faad.c:114-133 | a fully buffered esds consumes at most the buffered bytes and moves pos by what it consumes |
| Boxes.EsdsApply | faad.c:124-133 | the esds branch, once the walk's result is known, consumes at most what is buffered and moves pos in step |
| Boxes.StscStep | faad.c:136-143 | the stsc branch consumes at most what is buffered and moves pos in step |
| Boxes.StcoStep | faad.c:146-192 | the stco branch consumes at most what is buffered and moves pos in step |
| Boxes.MdatStep | faad.c:195-217 | mdat always ends the call, past at most its header and the buffered rest, with pos in step |
| Boxes.ToFirstChunk | faad.c:199-212 | any move lands pos exactly on the first chunk's offset; a skip left pending reaches exactly that offset |
| Boxes.Branch | faad.c:114-243 | the branch for the box type stays within the buffered bytes, with pos in step; a branch that goes on consumes what ConsumeFor says |
| Boxes.BoxStep | faad.c:97-243 | one pass never reads past the buffered bytes and moves pos by exactly what the read cursor moves; a pass that goes on consumes 8 for containers, 16 for stsd, 36 for mp4a and the box length otherwise; a return is -1, 0 or 1 |
| Boxes.TypeOf | faad.c:105-227 | a tag recognised as a known type is that type's four-character name read as a big-endian word; anything else is an uninterpreted box |
| Boxes.TypeOfByName | faad.c:105-227 | each of the eleven names the source compares against is recognised as its own type |
| Boxes.TagSpellsName | faad.c:98-111 | the four tag bytes give a known type exactly when they spell its name, which is what strcmp against the nul-terminated copy decides |
| Boxes.ConsumeToFirstChild | faad.c:219-227 | ConsumeFor takes moov, trak, mdia, minf and stbl to their first child after the 8-byte header, stsd after its 16 header bytes and mp4a after the 36 bytes of its sample entry fields, as the ISO/IEC 14496-12 layouts place them, and any other box whole |
| Boxes.Count | faad.c:103-111 | moov zeroes trak and play, trak counts one more track and keeps play, any other type changes nothing, and nothing but the two counters ever changes |
| Boxes.TrakNumbersTracks | faad.c:103-111 | after a moov with no later one, trak is the number of trak headers read since and play is 0 |
| Boxes.Configure | faad.c:129-132 | an accepted configuration makes the current track the playable one and records its rate and channels; a refused one changes nothing; no other field changes |
| Boxes.Parse | faad.c:92-247 | the call consumes at most the buffered bytes, moves pos by exactly that, and returns -1, 0 or 1 |
| Boxes.ParseUnfold | faad.c:97-243 | the call is one pass followed, after a pass that consumed something, by the call on the rest |
| Boxes.ResumeStep | faad.c:97-243 | after adv bytes, one pass either ends the call where it stops or leaves a call on the remaining bytes with the same outcome |
| Boxes.ParseShort | faad.c:97-246 | with fewer than 8 bytes nothing changes and the result is 0 |
| Boxes.ContainerStep | faad.c:103-225 | moov, trak, mdia, minf and stbl consume just their header; moov zeroes trak and play, and trak adds one to trak |
| Boxes.PartialBox | faad.c:235-240 | a box that is not read into, buffered only in part, is consumed as far as buffered and the shortfall is left in consume; the result is 0 |
| Boxes.InterpretedNeedsWholeBox | faad.c:114-243 | esds, stsc and stco with fewer bytes than their length are not consumed at all; with exactly their length buffered they are passed over without being read |
| Boxes.EsdsBadTagFails | faad.c:123-127 | an esds whose walk does not reach tag 0x05 fails the header with nothing consumed |
| Boxes.EsdsSelectsTrack | faad.c:128-133 | a configuration NeAACDecInit2 accepts sets play to trak and reports its rate and channels; a rejected one leaves all but pos unchanged |
| Boxes.StscStashed | faad.c:136-143 | a fully buffered stsc of at least 12 bytes met before any table stashes its bytes past the 12-byte header and passes over the whole box, nothing else changing |
| Boxes.StscTooShortFails | faad.c:136-143 | a fully buffered stsc shorter than 12 bytes met before any table fails the header, consuming nothing |
| Boxes.StscAfterTableIgnored | faad.c:136 | an stsc met after a table exists is not stashed |
| Boxes.StcoOfOtherTrackIgnored | faad.c:146 | an stco of a track other than the playable one leaves the table as it is |
| Boxes.StcoBuildsTable | faad.c:146-234 | a fully buffered stco of the playable track installs the table built from its offsets and the stashed runs, drops the stash, is consumed whole and the loop goes on, with nothing else changed |
| Boxes.DefaultTailPasses | faad.c:219-234 | a box other than mdat that no esds, stsc or stco branch reads, buffered up to what is consumed of it (stsd and mp4a included), is consumed to its first child or whole and the loop goes on with only the track counters and pos changed |
| Boxes.MdatEndsHeader | faad.c:195-216 | mdat without a playable track fails past its header; with one it returns 1 with sample and nextchunk 1, after skipping to the first chunk now or leaving the skip pending |
| Boxes.ParseAsWritten | faad.c:97-243 | the loop without a guard against empty passes, run to a fuel bound, keeps the same bound on consumption and pos |
| Boxes.ZeroLengthPass | faad.c:220-234 | a box of any other type whose size field is 0 is passed with 0 bytes consumed and nothing changed |
| Boxes.ZeroLengthBoxStalls | faad.c:97-234 | as written, such a box is passed again and again: no number of passes ends the call |
| Boxes.ZeroLengthBoxFails | faad.c:220-234 | the corrected call fails on such a box with nothing consumed |
| Buffers.RingBytes | faad.c:251-252 | the buffered bytes in stream order are the storage read round the ring from readp |
| Buffers.ContReadAt | faad.c:252 | the contiguous readable bytes of a ring are at most used and either all of them or up to the end of the storage |
| Buffers.StreamBuffer.ContRead | faad.c:252 | the contiguous readable bytes are at most used and either all of them or up to the end of the storage |
| Buffers.StreamBuffer.View | faad.c:252 | the decoder's in-place view holds min(used, cont_read) bytes starting at readp |
| Buffers.StreamBuffer.Contents | faad.c:251 | everything buffered, used bytes long |
| Buffers.StreamBuffer.IncReadp | faad.c:257 | consuming n bytes drops exactly the first n buffered bytes and moves readp round the ring by n, keeping the storage |
| Buffers.RingDrop | faad.c:257 | what is buffered after consuming n bytes is what was buffered, less its first n |
| Buffers.ViewDrop | faad.c:232-237 | consuming n bytes of the view leaves the rest of it in view |
| Buffers.Stitch | faad.c:327-332 | the local copy is WRAPBUF_LEN bytes long |
| Buffers.StitchIsFront | faad.c:327-332 | the local copy is exactly the first WRAPBUF_LEN buffered bytes, across the wrap |
| Buffers.OutputBuffer.ContWrite | faad.c:396 | the contiguous write space is a whole number of frames, at most the free space, within the storage |
| Buffers.OutputBuffer.IncWritep | faad.c:417 | writing whole frames moves writep round the ring and takes them off the free space |
| Driver.SyncIsSyncwordAndLayer | faad.c:272 | the scan's test holds exactly for the 12-bit syncword 0xFFF followed by layer bits 00 |
| Driver.IsSync | faad.c:272 | the scan stops at 0xFF followed by one of 0xF0, 0xF1, 0xF8 or 0xF9, and at nothing else |
| Driver.SyncSkip | faad.c:272-276 | the scan drops no more than is in view, no dropped byte starts a sync, and it stops at a sync when two bytes are left |
| Driver.SyncSkipUnique | faad.c:272-276 | any count with those three properties is the scan's count |
| Driver.AdtsDetect | faad.c:269-286 | ADTS detection advances within the view, yields -1, 0 or 1, and changes only the rate and channels, and those only on success |
| Driver.AdtsDetectAt | faad.c:269-286 | after a scan to k: 0 with fewer than 2 bytes left, -1 when NeAACDecInit fails, else 1 with the rate and channels it reports and an advance of k plus what it consumed |
| Driver.AdtsDetectStaged | faad.c:269-286 | the scan followed by the initialisation on what is left gives AdtsDetect's result, state and remaining bytes |
| Driver.InitAfterScan | faad.c:278-286 | the init stage stays within the bytes, returns -1, 0 or 1, and changes the rate and channels only on success |
| Driver.InitStaged | faad.c:278-286 | fewer than two bytes left waits, a negative NeAACDecInit result fails, and otherwise the bytes it used are consumed and its format kept |
| Driver.Detect | faad.c:264-292 | header detection is the ADTS detection for stream type '2' and Parse otherwise, within the view, with result -1, 0 or 1 |
| Driver.ByConsumed | faad.c:368-376 | away from a boundary the cursor moves by what the decode call consumed, and nothing consumed is fatal |
| Driver.ToChunk | faad.c:350-365 | at a boundary, a next chunk behind pos is fatal; otherwise nextchunk moves on, and the skip is made now exactly when enough is buffered |
| Driver.Reconcile | faad.c:345-386 | sample counts up only when a table exists and the slot's offset is not 0; a boundary fires only where sample matches; which cases are fatal; a fatal outcome consumes nothing; pos moves in step; the tables and track counters are kept |
| Driver.Counted | faad.c:348 | sample is counted only with a table and a slot index inside it, and never at a closing sentinel of offset 0 |
| Driver.AtBoundary | faad.c:348 | a chunk boundary is only ever met where sample is counted |
| Driver.BoundaryOnBuiltTable | faad.c:348 | on a table built from stco and the stashed runs, sample is counted exactly while nextchunk names a chunk of non-zero offset, and a boundary is met exactly there, when the count equals that chunk's first sample as the runs give it (0 without runs) |
| Driver.BoundaryLandsOnChunk | faad.c:350-361 | after a boundary, pos or pos plus the pending skip is exactly the next chunk's offset, whatever the decode call consumed |
| Driver.NextChunkStaysInTable | faad.c:348-361 | in a table whose last slot is the sentinel, nextchunk never leaves the table |
| Driver.SentinelNeverFires | faad.c:348 | at the sentinel slot of a built table the tick moves only by what the decode call consumed |
| Driver.Pcm | faad.c:401-414 | two slots per frame for mono or stereo and none otherwise; each slot is a 24-bit sample shifted up by 8 bits |
| Driver.Frames | faad.c:394 | frames is the sample count divided by the channel count, rounded down as unsigned division does: frames times channels is at most the samples and one more frame would exceed them |
| Driver.MonoDuplicated | faad.c:407-411 | a mono frame carries its sample in both slots |
| Driver.StereoInterleaved | faad.c:402-406 | stereo slot k holds engine sample k, shifted |
| Driver.Slots | faad.c:394-418 | the slots the first d frames fill are the front of the whole result |
| Driver.DecodeInput | faad.c:327-339 | the engine is handed no more than is buffered |
| Driver.InputLen | faad.c:325-339 | the engine is handed no more than is buffered and at least the contiguous bytes |
| Driver.DecodeInputIsNextBytes | faad.c:327-339 | either way the engine sees the next InputLen buffered bytes in stream order, at least the contiguous ones |
| Driver.WroteSlot | faad.c:400-417 | after a write round the ring from w0, slot w0 + k holds output k |
| Driver.WroteExtend | faad.c:395-418 | writing the next piece right after what is written extends what is written by that piece |
| FaadCodec.Faad.constructor | faad.c:475-479 | a fresh context has no engine handle and no tables |
| FaadCodec.Faad.Open | faad.c:425-453 | the stream type is set; pos, consume, sample and nextchunk are zeroed; the tables are dropped; the engine is reopened for 24-bit output with downmixing; the track counters and reported format are kept |
| FaadCodec.Faad.Close | faad.c:455-466 | the engine is closed and the tables dropped, with everything else kept |
| FaadCodec.Faad.Advance | faad.c:257-258 | the read cursor and pos move together |
| FaadCodec.Faad.Skip | faad.c:232-238 | the read cursor and pos move together over a view |
| FaadCodec.Faad.ConsumeBox | faad.c:219-243 | the consuming tail does what Finish says to the state and the buffer |
| FaadCodec.Faad.Take | faad.c:229-243 | consuming a pass does what Finish says |
| FaadCodec.Faad.MdatBox | faad.c:195-217 | the mdat branch does what MdatStep says |
| FaadCodec.Faad.SeekChunk | faad.c:199-212 | positioning on the first chunk does what ToFirstChunk says |
| FaadCodec.Faad.Configured | faad.c:129-132 | an accepted configuration makes the current track playable and records its format |
| FaadCodec.Faad.EsdsBox | faad.c:114-243 | the esds branch does what EsdsApply says |
| FaadCodec.Faad.StscBox | faad.c:136-243 | the stsc branch does what StscStep says |
| FaadCodec.Faad.StcoBox | faad.c:146-243 | the stco branch, building the table in an array, does what StcoStep says |
| FaadCodec.Faad.Pass | faad.c:98-243 | one pass of the loop does what BoxStep says to the state and the buffer |
| FaadCodec.Faad.Interpret | faad.c:114-243 | the branch for the box type does what Branch says to the state and the buffer |
| FaadCodec.Faad.HeaderStep | faad.c:97-243 | one pass keeps the loop on course for Parse's outcome, or ends it with that outcome |
| FaadCodec.Faad.Arrived | faad.c:97-246 | once fewer than 8 bytes are left, the loop has reached Parse's outcome, with result 0 |
| FaadCodec.Faad.ReadBoxes | faad.c:97-246 | the loop ends with Parse's result, state and consumption |
| FaadCodec.Faad.ReadMp4Header | faad.c:92-247 | the header reader returns Parse's result, leaves Parse's state and consumes exactly the bytes Parse consumes |
| FaadCodec.ReadInput | faad.c:327-339 | the bytes handed to NeAACDecDecode are DecodeInput's |
| FaadCodec.DropNoSync | faad.c:272-276 | one scan step drops exactly the first buffered byte, which does not start a sync, and moves readp past it |
| FaadCodec.ScanAdts | faad.c:272-276 | only bytes that do not start a sync are dropped, the scan ends with fewer than 2 bytes in view or at a sync, and it drops exactly SyncSkip's count |
| FaadCodec.Faad.PaySkip | faad.c:254-262 | a pending skip consumes min(consume, contiguous bytes), moving pos and reducing consume by that |
| FaadCodec.Faad.AdtsInit | faad.c:278-285 | a negative init result fails the header with nothing moved; otherwise its bytes are consumed and its format recorded |
| FaadCodec.Faad.AdtsHeader | faad.c:269-286 | the result, the new state and the bytes left are AdtsDetect's, and the scan drops SyncSkip's count |
| FaadCodec.Faad.AdtsAfterScan | faad.c:278-285 | with fewer than 2 bytes in view nothing happens and the result is 0; otherwise -1 when NeAACDecInit fails, else 1 with its rate and channels and its bytes consumed |
| FaadCodec.Faad.EndOfChunk | faad.c:345-376 | the bookkeeping after a decode call does what Reconcile says |
| FaadCodec.Faad.NextChunk | faad.c:350-365 | the boundary case does what ToChunk says |
| FaadCodec.Faad.DecodeFrame | faad.c:324-376 | the engine is handed DecodeInput and its result is reconciled |
| FaadCodec.Faad.DetectHeader | faad.c:269-292 | the result, the new state and the bytes left are Detect's, and readp moves past exactly the bytes used |
| FaadCodec.Faad.NewStream | faad.c:264-322 | the result, the new state, the bytes left and readp are Detect's, for ADTS and MP4 streams alike; 1 clears new_stream and sets the next sample rate and track start; -1 sets the decode error; 0 changes neither |
| FaadCodec.Faad.DecodeStep | faad.c:324-420 | the engine is handed DecodeInput, the next InputLen buffered bytes; state and bytes left are Reconcile's; a fatal reconcile sets the decode error and writes nothing; otherwise the converted samples are written round the output ring |
| FaadCodec.Faad.Proceed | faad.c:264-423 | a tick without a pending skip is Detect's header detection while the stream is new, with its state and bytes left, then a decode step from that state and those bytes once the header is found; the engine is handed InputLen of what is left at the read position past the header, or DecodeInput when the stream was not new |
| FaadCodec.Faad.Detected | faad.c:264-423 | a new stream's tick: waiting or failed headers leave Detect's state and bytes and write nothing; a found header is followed by one decode step from them, handed InputLen bytes from the read position past the header |
| FaadCodec.Faad.Decode | faad.c:249-423 | a pending skip is paid and ends the tick with nothing else changed, the output status included; otherwise the tick is what Proceed states |
| FaadCodec.WritePcm | faad.c:392-418 | the write loop stores exactly Pcm's slots round the ring from writep, moving writep and the free space by two slots per frame, written or not |
| FaadCodec.PieceFrames | faad.c:396-397 | each piece is at least one frame, fits the contiguous space, and is either all that is left or fills to the end of the storage |
| FaadCodec.MovePast | faad.c:416-417 | writep and the free space move past the piece, and the slots are kept |
| FaadCodec.CopyStereo | faad.c:402-406 | count stereo frames are stored shifted at the given slot, and nothing else changes |
| FaadCodec.CopyMono | faad.c:407-411 | count mono samples are each stored twice, shifted, and nothing else changes |
| FaadCodec.PutStereo | faad.c:402-406 | a stereo piece extends what is written by its slots |
| FaadCodec.PutMono | faad.c:407-411 | a mono piece extends what is written by its slots |
| FaadCodec.StereoPiece | faad.c:402-406 | a copied stereo piece extends what is written |
| FaadCodec.MonoPiece | faad.c:407-411 | a copied mono piece extends what is written |

## Left out

- Loading libfaad with `dlopen`/`dlsym` and the plugin registration (faad.c:468-516) are left out, except the initial state of the context (faad.c:475-479). Only the constants `WRAPBUF_LEN` (2048) and the free space the plugin asks for (20480 bytes) are kept.
- The internals of `NeAACDecOpen`, `NeAACDecInit`, `NeAACDecInit2`, `NeAACDecDecode` and the configuration calls are not modelled. The engine is a parameter whose results are constrained only by `Behaves`. The handle is a flag, and the configuration is two fields.
- The `LOCK_S`/`LOCK_O` mutexes, all logging, and `NeAACDecGetErrorMessage` are left out. `info.error` is only logged by the source, so the model carries it and does not use it.
- The ring buffer implementation behind `_buf_used`, `_buf_cont_read`, `_buf_inc_readp`, `_buf_cont_write` and `_buf_inc_writep` is not part of this model. The classes in `buffers.dfy` stand for it by their contracts.
- The `malloc` failure branches (faad.c:138-141, 152-155) are left out. Allocation always succeeds.
- Reads the source makes past the buffered bytes are modelled as a failure (-1). This covers descriptors running past the buffered esds bytes and stco entries past the view. The source reads whatever memory lies there.
- Boxes.StscStep: a fully buffered stsc shorter than 12 bytes fails the header (-1). In the source `len - 12` wraps in 32 bits, so the 32-bit size passed to `malloc` and `memcpy` is close to 4 GiB.
- Boxes.StcoStep: fails the header (-1) when a stash exists and its runs do not satisfy `RunsFit`, or it is shorter than its entry count says. The source has no such check and builds a table in every case. Runs that are in bounds but out of order, such as (5,10),(3,20) over 8 chunks, make its loops skip slots, which keep sample 0. A single run whose first chunk is 0 or past entries + 1 leaves both loops empty. A later run whose first chunk is 0 or past entries + 2 can make the fill run past the table. A stash shorter than its count is read past its end.
- ChunkTable.BuildChunkTable requires runs that satisfy `RunsFit`. The header reader calls it only once that holds (see Boxes.StcoStep above).
- An stco with zero entries makes the source read `chunkinfo[1]` past its end at faad.c:348. The model treats a `nextchunk` beyond the table as no boundary.
- `pos`, `sample`, `consume` and `length` are unbounded naturals. The 32-bit wrap of `pos` past 4 GiB and of `sample` past 2^32 frames is not modelled.
- `<< 8` on a signed sample is modelled as multiplication by 256 on 24-bit values. The engine is configured with `FAAD_FMT_24BIT`, so its output fits.
- FaadCodec.Faad.Decode requires at least `MIN_SPACE` bytes of free output space and relies on the engine's bound of 2048 frames. Together these guarantee each write piece holds at least one frame. Termination of the write loop with no contiguous space (faad.c:395-397) is not modelled.
- The `rate`, `chan` and `endianness` parameters of `faad_open` are unused by the source and are not modelled.

## Findings

| source | as written | input that shows it | evidently intended | confidence | as-written member | corrected member |
|---|---|---|---|---|---|---|
| faad.c:219-243 | a pass that consumes 0 bytes leaves the bytes as they were, so `while (bytes >= 8)` tests the same header forever; this happens for a box with size field 0 of a type the loop does not handle specially, and can also happen for a size-0 esds, a size-0 stco of the playable track or a size-0 stsc met once a table exists; the two members cover the first case, and the guard in `Parse` fails all of them | 8 or more buffered bytes starting 00 00 00 00 followed by a type such as `free` | the header reader stops, here by failing, instead of spinning | not executed | Boxes.ZeroLengthBoxStalls | Boxes.ZeroLengthBoxFails |
