# pico_sd_audio_stream: control logic in Dafny

This project models the pure, sequential core of a Raspberry Pi Pico audio
streamer that plays background music (BGM) and sound effects (SFX) from raw
PCM sectors on an SD card. It covers:

- the **byte reader**, a cursor that copies little-endian u8/u16/u32 fields
  out of a byte region and can skip forward (`ByteReader`);
- the **audio map**, the index sector of the card (16-byte magic
  `RETROFIST_AUDIO!`, u16 track count, 8-byte records of u16 id, u32 first
  sector and u16 sector count), how it is stored and how a track is looked
  up (`AudioMap`);
- the **BGM playlist**: clear, enqueue at the head, the loop flag, and the
  dequeue that rotates the played track to the tail when looping
  (`Playlist`);
- the single-cell **SFX request** with priority preemption (`Sfx`);
- the **stream queue** of a channel and the written part of its pump:
  wait for the head read, take the sample count from the sector footer,
  submit, move `head` round a circle of three slots (`TrackQueue`);
- the **playlist update** that starts the next BGM track (`Renderer`);
- the synchronous **track player** of `main.c`, from the card's sector
  contents to the ordered list of buffers it submits (`Player`).

The model follows the code as written, quirks included. The process-wide
statics become one `Renderer.State` value, the linked-list playlist is a
`seq<uint16>` from head to tail, and the SD card is a map from sector
number to sector bytes. Reads the C code does without a bounds check
become preconditions that the bytes lie inside the region. The host byte
order is little-endian, because `memcpy` into an integer on the RP2040
gives that order. Completion of an asynchronous SD read is a parameter:
the set of handles the driver reports done. The sector size is a
parameter of at least 4 bytes.

## Model

| member | source | states |
|---|---|---|
| ByteReader.Skip | serialization/bytereader.c:5-8 | the region is unchanged and the offset grows by exactly n, n negative included |
| ByteReader.SkipTwice | serialization/bytereader.c:5-8 | two skips equal one skip by their sum |
| ByteReader.ReadU8 | serialization/bytereader.c:10-18 | the value is the byte at the offset; the region is unchanged; the offset grows by 1; the field must lie in the region |
| ByteReader.ReadU16 | serialization/bytereader.c:20-28 | the value is `b[o] + 256*b[o+1]` (little-endian host order); the region is unchanged; the offset grows by 2 |
| ByteReader.ReadU32 | serialization/bytereader.c:30-38 | the value is the 4-byte little-endian number at o; the region is unchanged; the offset grows by 4 |
| ByteReader.ReadU16ThenU32 | serialization/bytereader.c:20-38 | a u16 read then a u32 read see the same values as separate reads at o and o+2, and the cursor ends at o+6 over the same bytes |
| ByteReader.LittleEndian | serialization/bytereader.c:30-38 | an n-byte little-endian field is below 256^n, so every read fits its width |
| ByteReader.DecodeEncode | serialization/bytereader.c:20-38 | reading back the little-endian bytes of any in-range value gives that value |
| ByteReader.EncodeDecode | serialization/bytereader.c:20-38 | writing out the value read from any field gives the same bytes back |
| AudioMap.SetAudioSdMap | audio_renderer/audio_renderer.c:99-116 | returns true and stores the new map exactly when the first 16 bytes are NOT the magic; otherwise returns false and keeps the old map |
| AudioMap.WellFormedMapIsRejected | audio_renderer/audio_renderer.c:101-105 | every map encoded in the documented layout is refused and the stored map is untouched |
| AudioMap.ReadTrackData | audio_renderer/audio_renderer.c:118-139 | fails with no stored map; otherwise succeeds exactly when the u16 at 16+8id equals id, and then returns the u32 at 18+8id and the u16 at 22+8id |
| AudioMap.ReadRecord | main.c:57-60 | reading u16, u32, u16 from offset o gives the id at o, the sector at o+2 and the count at o+6 |
| AudioMap.EncodeMapIsLaidOut | audio_renderer/audio_renderer.c:89-95 | the encoder of the documented layout round-trips through the reader: count at 16, record i read back at 18+8i |
| AudioMap.EncodedMapIsLaidOut | audio_renderer/audio_renderer.c:89-95 | any region that begins with an encoded map reads back its count and every record |
| AudioMap.EncodedHeader | audio_renderer/audio_renderer.c:89-95 | an encoded map carries the magic and its track count at 16 |
| AudioMap.TrackZeroNeverFound | audio_renderer/audio_renderer.c:125-134 | in any non-empty map in the documented layout, the as-written lookup of track 0 reads the track count as its id and fails |
| AudioMap.ShiftedLookup | audio_renderer/audio_renderer.c:125-138 | in a laid-out map, the as-written lookup of track i>0 succeeds exactly when record i-1's count equals i, and then returns record i's id and sector halves, not its sector and count |
| AudioMap.OneTrackMapLookup | audio_renderer/audio_renderer.c:127 | a one-track map [(0, 5, 3)]: the as-written lookup misses track 0, the 18-based lookup finds (5, 3) |
| Playlist.Clear | audio_renderer/audio_renderer.c:32-40 | the playlist is empty afterwards and the loop flag is kept |
| Playlist.Enqueue | audio_renderer/audio_renderer.c:43-49 | the new track is the head and the old entries follow unchanged |
| Playlist.SetLoop | audio_renderer/audio_renderer.c:51-57 | sets the loop flag and leaves the entries alone |
| Playlist.SingleEntryLoopFaults | audio_renderer/audio_renderer.c:275-281 | a looping one-entry playlist dereferences NULL on its first advance |
| Playlist.AppendAfterLast | audio_renderer/audio_renderer.c:275-281 | the tail walk faults exactly when no entry is left, and otherwise links the popped track after the last entry |
| Playlist.Advance | audio_renderer/audio_renderer.c:267-281 | pops the head; without loop the rest remains; with loop the head moves to the tail; faults exactly for a looping one-entry playlist |
| Playlist.AdvanceUndoesEnqueue | audio_renderer/audio_renderer.c:43-49 | without loop, advancing after an enqueue returns that track and the playlist as it was |
| Playlist.AdvanceRotatesEnqueued | audio_renderer/audio_renderer.c:270-281 | with loop, an enqueued track is played first and then becomes the tail |
| Playlist.LoopOffPlaysEachOnce | audio_renderer/audio_renderer.c:269-272 | without loop, n advances play all n entries head first and leave the playlist empty |
| Playlist.LoopOnRotates | audio_renderer/audio_renderer.c:269-281 | with loop and at least two entries, k advances play the first k entries in order and rotate them to the tail |
| Playlist.LoopOnCycles | audio_renderer/audio_renderer.c:269-281 | with loop and at least two entries, a full round plays every entry once and restores the playlist |
| Playlist.EnqueueOrderIsReversed | audio_renderer/audio_renderer.c:43-49 | enqueue a, enqueue b, loop off: advances play b, then a, then nothing |
| Sfx.SfxPlay | audio_renderer/audio_renderer.c:73-84 | refused, with the cell unchanged, exactly when a request is pending at equal or higher priority; otherwise accepted and the cell holds (pending, id, priority) |
| Sfx.RequestLeavesHigherOrEqualPending | audio_renderer/audio_renderer.c:75-83 | after any request something is pending at least at the asked priority, and a pending priority never drops |
| Sfx.EqualPriorityRepeatIsRefused | audio_renderer/audio_renderer.c:76 | ties favour the resident request |
| Sfx.PreemptionExample | audio_renderer/audio_renderer.c:73-84 | from empty: (x,5) accepted, (y,5) refused with (x,5) kept, (z,6) accepted |
| TrackQueue.InitialBgmQueueIsFinished | audio_renderer/audio_renderer.c:254-263 | the initial queue is well formed with sector index 1 above sector count 0 |
| TrackQueue.StartTrack | audio_renderer/audio_renderer.c:290-299 | the new queue holds the track, sector and count, index 0, head 0, and all slots zeroed |
| TrackQueue.NextHead | audio_renderer/audio_renderer.c:245-249 | the wrapped head is always below 3, and is (head+1) mod 3 for a valid head |
| TrackQueue.NextHeadCycles | audio_renderer/audio_renderer.c:245-249 | three steps return the head to where it started, and no fewer do |
| TrackQueue.TrackBufferPump | audio_renderer/audio_renderer.c:216-249 | nothing happens exactly when the head read is incomplete; a complete head read with a NULL buffer is a NULL dereference; otherwise the head buffer is submitted with the byte at sectorSize-4 as its sample count and only `head` changes, to (head+1) mod 3 |
| TrackQueue.CreatedQueuesNeverSubmit | audio_renderer/audio_renderer.c:254-299 | the initial queue and every queue a new track starts wait on handle 0 with a NULL buffer, so the pump either waits or dereferences NULL and never submits |
| TrackQueue.SampleCountIsFooterLowByte | audio_renderer/audio_renderer.c:224-230 | the sample count is the low byte of the little-endian u32 footer ending the sector |
| TrackQueue.OnlyHeadCompletionMatters | audio_renderer/audio_renderer.c:216-222 | completions of non-head slots do not change the outcome, so buffers leave in slot order |
| Renderer.UpdateBgmPlaylist | audio_renderer/audio_renderer.c:265-301 | unchanged unless the queue is finished and the playlist non-empty; then the playlist loses its head or rotates it, a failed lookup leaves the queue alone, a found track restarts the queue on it; SFX cell and map never change |
| Renderer.InitialQueueAdvances | audio_renderer/audio_renderer.c:254-267 | with the initial queue, the first update with a waiting track advances |
| Renderer.StartedTrackStopsAdvancing | audio_renderer/audio_renderer.c:265-299 | once a track with sectors has started, further updates change nothing, because no written code moves sector_index |
| Renderer.NoMapDrainsPlaylist | audio_renderer/audio_renderer.c:265-288 | with no stored map and loop off, n updates drop the first n tracks and never touch the queue |
| Player.ParseIndex | main.c:34-61 | refused exactly when the id exceeds the u16 count at 16; otherwise the record at 18+8id, whose stored id is never compared |
| Player.MagicNotChecked | main.c:36-38 | the first 16 bytes of the index do not affect the parse |
| Player.ParseIndexRoundTrip | main.c:54-61 | for an id inside a laid-out table the parse returns exactly that record |
| Player.AcceptsIdEqualToCount | main.c:49-52 | the id equal to the track count is accepted and reads the record that starts where the table ends |
| Player.EmptyTablePlaysTrackZero | main.c:49-61 | an empty table followed by zeros: track 0 is played from a record that is not in the table |
| Player.PlayTrack | main.c:32-89 | refused exactly when the id exceeds the count; otherwise exactly `count` submissions, the i-th for sector `sector+i` with the byte at sectorSize-4 of that sector as its sample count, in strictly increasing sector order |
| AudioMap.SetAudioSdMapIntended | audio_renderer/audio_renderer.c:101-115 | stores the map and returns true exactly when the first 16 bytes are the magic |
| AudioMap.WellFormedMapIsStoredIntended | audio_renderer/audio_renderer.c:101-115 | every encoded map is accepted and stored |
| AudioMap.ReadTrackDataIntended | audio_renderer/audio_renderer.c:118-139 | the lookup with records at 18+8id: succeeds exactly when the u16 there equals id, then returns the fields that follow |
| AudioMap.LookupIntendedRoundTrip | audio_renderer/audio_renderer.c:89-95 | in a laid-out map whose ids equal their positions, track i is found at exactly the sector and count stored for it |
| Playlist.AdvanceIntended | audio_renderer/audio_renderer.c:274-281 | always pops the head, and with loop re-links it at the tail, a single entry included |
| Playlist.IntendedLoopRotates | audio_renderer/audio_renderer.c:274-281 | with loop and any non-empty playlist, k advances play the first k entries in order and rotate them |
| Playlist.IntendedSingleEntryLoops | audio_renderer/audio_renderer.c:274-281 | a looping one-entry playlist plays its track and keeps it |
| Player.ParseIndexIntended | main.c:46-61 | refused exactly when the id is at least the count |
| Player.ParseIndexIntendedRoundTrip | main.c:46-61 | on a laid-out table, ids below the count give their record and all others are refused with the count |

`Renderer.UpdateBgmPlaylist` and `Player.PlayTrack` are built on the
as-written members (`Playlist.Advance`, `AudioMap.ReadTrackData`,
`Player.ParseIndex`), because they model the code as it stands. The
`...Intended` members under "## Findings" are the corrected definitions,
each with its intended property proved. Nothing else is built on them.

## Left out

- `init_audio_sys` (audio_renderer/audio_renderer.c:158-185): DMA, I2S and PIO bring-up is hardware configuration with no logic to model.
- `begin_async_read` (audio_renderer/audio_renderer.c:343-359): it only calls the buffer pool and the SD driver, and `get_async_read_buffer` is not part of this model. The pump takes completion as the parameter `completed` instead.
- `pump_audio_sys` (audio_renderer/audio_renderer.c:362-384): apart from the call to `update_bgm_playlist`, it is `panic` stubs.
- `begin_playing_sfx` (audio_renderer/audio_renderer.c:303-339): it is commented out. So is any "take" of the SFX request, which the renderer never does.
- TrackQueue.TrackBufferPump: the `queue->count == 0` gate (line 212) is left out, because it reads a field the struct does not have; it would return false. The refill branches (lines 236-243) are left out too: they read `sector_index` and `sector_count`, but both end in `panic`, so as written the `head` update is unreachable and the function never returns true. The model gives the completion test, decode, submit and wrap as one step. The sector-size requirement on a completed non-NULL head buffer stands for the unchecked footer read.
- No written code starts a read into a queue slot or advances `sector_index` (audio_renderer/audio_renderer.c:236-243, 362-384), so no property about issued reads, backpressure or end-to-end submission counts for the renderer is stated.
- `main()` and `read_sd_block` (main.c:22-30, 91-164): GPIO, USB CDC, sleeping and console input are I/O. Player.PlayTrack leaves out read errors (they are only printed), the blocking buffer acquire, the LED and `printf`.
- Player.PlayTrack: the sector number `(int)record_track_sector + i` is an unbounded `nat`. In C the cast is negative for sectors at or above 2^31, and the addition overflows `int` once `sector + i` reaches 2^31, which already happens for sectors within `count - 1` below 2^31.
- ByteReader.Skip: the offset is an unbounded `int`. The C `int` offset can overflow, but only far beyond any region this code reads.
- AudioMap.HasMagic: a region shorter than 16 bytes counts as a mismatch. In C, `strncmp` reads past the end of such a region unless an earlier byte differs.
- Dynamic memory: `malloc`/`free` of playlist nodes and of the old map, and pointer aliasing, are left out. The playlist is a sequence, and the stored map is a value.
- Renderer.UpdateBgmPlaylist: the NULL dereference of a looping one-entry playlist and out-of-bounds lookups are preconditions (`UpdateSafe`), not modelled crashes.
- collections/circular_buffer.c declares a struct and nothing else. The headers hold declarations only, and the unused `audio_library_track_sector_record` struct is not modelled.
- Format constants the logic does not use (sample rate, samples per buffer, sample stride) and the value of `SD_SECTOR_SIZE` are left out. The sector size is a parameter.

## Findings

| source | as written | input that shows it | evidently intended | confidence | as-written member | corrected member |
|---|---|---|---|---|---|---|
| audio_renderer/audio_renderer.c:102-105 | `if (!magic_header_cmp) return false;` refuses the map when the magic matches, and stores any other data | any map in the documented layout, e.g. an empty table; `main` then panics | refuse when the magic differs, store when it matches | high; not executed | AudioMap.SetAudioSdMap, AudioMap.WellFormedMapIsRejected | AudioMap.SetAudioSdMapIntended, AudioMap.WellFormedMapIsStoredIntended |
| audio_renderer/audio_renderer.c:127 | records are read at `16 + id * 8`, two bytes before where the layout comment and `play_track` put them | the one-track map [(id 0, sector 5, count 3)]: track 0 is not found | read records at `18 + id * 8` | high; not executed | AudioMap.ReadTrackData, AudioMap.OneTrackMapLookup | AudioMap.ReadTrackDataIntended, AudioMap.LookupIntendedRoundTrip |
| main.c:49 | `track_id > track_count` lets `track_id == track_count` through | an index with track count 0 followed by zero bytes, track 0: a record from outside the table is played | refuse `track_id >= track_count` | medium; not executed | Player.ParseIndex, Player.EmptyTablePlaysTrackZero | Player.ParseIndexIntended, Player.ParseIndexIntendedRoundTrip |
| audio_renderer/audio_renderer.c:275-281 | with looping on, the tail walk starts at the new head, which is NULL when the popped entry was the only one | a looping playlist of one track | a one-entry looping playlist keeps replaying its track | high; not executed | Playlist.Advance, Playlist.SingleEntryLoopFaults | Playlist.AdvanceIntended, Playlist.IntendedSingleEntryLoops |
