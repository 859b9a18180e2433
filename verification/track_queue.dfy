/**
 The per-channel stream queue (audio_renderer/audio_renderer.c, region
 buffer_track_queue): the track being streamed, how far into it the reads
 have gone, and a circular array of in-flight SD reads whose `head` is the
 next buffer to hand to playback.
 */
module TrackQueue {
  import opened Types
  import opened ByteReader

  /** AUDIOSYS_BUFFER_SUBSYS_COUNT: in-flight reads per channel. */
  const SubsysCount := 3

  /**
   An in-flight read: the audio buffer's bytes (None for a NULL buffer) and
   the SD driver's handle for the asynchronous read into it.
   */
  datatype InFlightRead = InFlightRead(buffer: Option<seq<uint8>>, handle: int)

  /** A zero-initialised slot: NULL buffer, handle 0. */
  const NoRead := InFlightRead(None, 0)

  datatype StreamQueue = StreamQueue(
    trackId: uint16,
    baseSector: uint32,
    sectorCount: uint16,
    sectorIndex: uint16,
    slots: seq<InFlightRead>,
    head: uint8)

  /** The array has its fixed length and `head` indexes it. */
  predicate Valid(q: StreamQueue)
  {
    |q.slots| == SubsysCount && q.head < SubsysCount
  }

  /**
   The initial BGM queue: no track, zero sectors, and a sector index of 1,
   so the queue already counts as finished and the first playlist update
   may start a track.
   */
  const InitialBgmQueue := StreamQueue(0, 0, 0, 1, [NoRead, NoRead, NoRead], 0)

  lemma InitialBgmQueueIsFinished()
    ensures Valid(InitialBgmQueue)
    ensures InitialBgmQueue.sectorIndex > InitialBgmQueue.sectorCount
  {
  }

  /**
   The queue a compound-literal assignment creates for a new track: the
   given track, sector index 0, head 0, and every other field zero.
   */
  function StartTrack(trackId: uint16, sector: uint32, count: uint16): (q: StreamQueue)
    ensures Valid(q)
    ensures q.trackId == trackId && q.baseSector == sector && q.sectorCount == count
    ensures q.sectorIndex == 0 && q.head == 0
    ensures forall i :: 0 <= i < |q.slots| ==> q.slots[i] == NoRead
  {
    StreamQueue(trackId, sector, count, 0, [NoRead, NoRead, NoRead], 0)
  }

  /** `head++` on a uint8, then back to 0 once it reaches the slot count. */
  function NextHead(head: uint8): (h: uint8)
    ensures h < SubsysCount
    ensures head < SubsysCount ==> h == (head + 1) % SubsysCount
  {
    var h := (head + 1) % 0x100;
    if h >= SubsysCount then 0 else h
  }

  /** Three steps bring a valid head back where it started. */
  lemma NextHeadCycles(head: uint8)
    requires head < SubsysCount
    ensures NextHead(NextHead(NextHead(head))) == head
    ensures NextHead(head) != head && NextHead(NextHead(head)) != head
  {
  }

  /** A buffer handed to playback: its bytes and the sample count set on it. */
  datatype Submission = Submission(bytes: seq<uint8>, sampleCount: uint8)

  /**
   The outcome of one pump step. NullBuffer is the dereference of a NULL
   head buffer once its read reports complete.
   */
  datatype PumpResult = NotReady | NullBuffer | Submitted(buffer: Submission, queue: StreamQueue)

  /**
   What the unchecked footer read demands of a completed head read whose
   buffer is not NULL: the buffer holds one sector.
   */
  predicate HeadReadable(q: StreamQueue, completed: set<int>, sectorSize: nat)
    requires Valid(q)
  {
    var r := q.slots[q.head];
    r.handle in completed && r.buffer.Some? ==> |r.buffer.value| == sectorSize
  }

  /**
   The written part of track_buffer_pump. Only the read at `head` is asked
   whether it has completed (`completed` holds the handles the SD driver
   reports done). If it has, its buffer is dereferenced without a check;
   the byte at sectorSize - 4 becomes the buffer's sample count, the
   buffer is submitted, and `head` moves on circularly. Otherwise nothing
   changes.
   */
  function TrackBufferPump(q: StreamQueue, completed: set<int>, sectorSize: nat): (r: PumpResult)
    requires Valid(q) && sectorSize >= 4
    requires HeadReadable(q, completed, sectorSize)
    ensures r.NotReady? <==> q.slots[q.head].handle !in completed
    ensures r.NullBuffer? <==> q.slots[q.head].handle in completed && q.slots[q.head].buffer.None?
    ensures r.Submitted? ==>
      && r.buffer.bytes == q.slots[q.head].buffer.value
      && r.buffer.sampleCount == r.buffer.bytes[sectorSize - 4]
      && Valid(r.queue)
      && r.queue.head == (q.head + 1) % SubsysCount
      && r.queue == q.(head := r.queue.head)
  {
    var read := q.slots[q.head];
    if read.handle !in completed then NotReady
    else if read.buffer.None? then NullBuffer
    else
      var bytes := read.buffer.value;
      var (sampleCount, _) := ReadU8(Reader(bytes, sectorSize - 4));
      Submitted(Submission(bytes, sampleCount), q.(head := NextHead(q.head)))
  }

  /**
   Every queue the program creates holds only zeroed slots, so its head
   waits on handle 0 and, once that handle reports complete, the pump
   dereferences a NULL buffer: no written code ever fills a slot.
   */
  lemma CreatedQueuesNeverSubmit(trackId: uint16, sector: uint32, count: uint16, completed: set<int>, sectorSize: nat)
    requires sectorSize >= 4
    ensures var q := StartTrack(trackId, sector, count);
            && HeadReadable(q, completed, sectorSize)
            && TrackBufferPump(q, completed, sectorSize) == if 0 in completed then NullBuffer else NotReady
    ensures HeadReadable(InitialBgmQueue, completed, sectorSize)
    ensures TrackBufferPump(InitialBgmQueue, completed, sectorSize) == if 0 in completed then NullBuffer else NotReady
  {
    var q := StartTrack(trackId, sector, count);
    assert q.slots[q.head] == NoRead;
    assert InitialBgmQueue.slots[0] == NoRead;
  }

  /**
   The sample count is the low byte of the little-endian u32 footer that
   ends the sector.
   */
  lemma SampleCountIsFooterLowByte(q: StreamQueue, completed: set<int>, sectorSize: nat)
    requires Valid(q) && sectorSize >= 4
    requires HeadReadable(q, completed, sectorSize)
    requires TrackBufferPump(q, completed, sectorSize).Submitted?
    ensures var r := TrackBufferPump(q, completed, sectorSize);
            r.buffer.sampleCount == U32At(r.buffer.bytes, sectorSize - 4) % 0x100
  {
  }

  /**
   Only the head read matters: completions of other slots neither submit
   anything nor change the outcome, so buffers leave in slot order.
   */
  lemma OnlyHeadCompletionMatters(q: StreamQueue, c1: set<int>, c2: set<int>, sectorSize: nat)
    requires Valid(q) && sectorSize >= 4
    requires HeadReadable(q, c1, sectorSize) && HeadReadable(q, c2, sectorSize)
    requires (q.slots[q.head].handle in c1) == (q.slots[q.head].handle in c2)
    ensures TrackBufferPump(q, c1, sectorSize) == TrackBufferPump(q, c2, sectorSize)
  {
  }
}
