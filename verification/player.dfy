/**
 The synchronous track player of main.c (play_track): read the index from
 sector 0, find the track's record, then read its sectors one after another
 and hand each to playback with the sample count from its footer.
 */
module Player {
  import opened Types
  import opened ByteReader
  import opened AudioMap

  datatype IndexOutcome = InvalidTrack(trackCount: uint16) | Found(record: TrackRecord)

  /**
   The index bytes play_track reads lie in the index sector: the track
   count, and the record when the id passes the check.
   */
  predicate IndexReadable(index: seq<uint8>, trackId: uint16)
  {
    && |index| >= TableOffset
    && (trackId <= U16At(index, MagicSize) ==> TableOffset + trackId * RecordSize + RecordSize <= |index|)
  }

  /**
   The index parsing of play_track: the magic is compared but the result is
   only printed; the track count is the u16 at 16; an id greater than the
   count is refused, so an id equal to it passes; the record at
   18 + id * 8 is read and its stored id is not compared with the id asked for.
   */
  function ParseIndex(index: seq<uint8>, trackId: uint16): (r: IndexOutcome)
    requires IndexReadable(index, trackId)
    ensures r.InvalidTrack? <==> trackId > U16At(index, 16)
    ensures r.InvalidTrack? ==> r.trackCount == U16At(index, 16)
    ensures r.Found? ==>
      r.record == TrackRecord(U16At(index, 18 + 8 * trackId), U32At(index, 20 + 8 * trackId), U16At(index, 24 + 8 * trackId))
  {
    var reader := Reader(index, MagicSize);
    var (trackCount, reader) := ReadU16(reader);
    if trackId > trackCount then InvalidTrack(trackCount)
    else
      var reader := Skip(reader, trackId * RecordSize);
      Found(ReadRecord(index, reader.offset))
  }

  predicate IndexReadableIntended(index: seq<uint8>, trackId: uint16)
  {
    && |index| >= TableOffset
    && (trackId < U16At(index, MagicSize) ==> TableOffset + trackId * RecordSize + RecordSize <= |index|)
  }

  /** The parse with the evidently intended bound: only ids below the count pass. */
  function ParseIndexIntended(index: seq<uint8>, trackId: uint16): (r: IndexOutcome)
    requires IndexReadableIntended(index, trackId)
    ensures r.InvalidTrack? <==> trackId >= U16At(index, 16)
    ensures r.InvalidTrack? ==> r.trackCount == U16At(index, 16)
    ensures r.Found? ==>
      r.record == TrackRecord(U16At(index, 18 + 8 * trackId), U32At(index, 20 + 8 * trackId), U16At(index, 24 + 8 * trackId))
  {
    var reader := Reader(index, MagicSize);
    var (trackCount, reader) := ReadU16(reader);
    if trackId >= trackCount then InvalidTrack(trackCount)
    else
      var reader := Skip(reader, trackId * RecordSize);
      Found(ReadRecord(index, reader.offset))
  }

  /** The magic is never checked: the first 16 bytes do not affect the parse. */
  lemma MagicNotChecked(a: seq<uint8>, b: seq<uint8>, trackId: uint16)
    requires |a| == |b| >= MagicSize && a[MagicSize..] == b[MagicSize..]
    requires IndexReadable(a, trackId)
    ensures IndexReadable(b, trackId)
    ensures ParseIndex(a, trackId) == ParseIndex(b, trackId)
  {
    assert a[16] == a[MagicSize..][0] == b[16];
    assert a[17] == a[MagicSize..][1] == b[17];
    if trackId <= U16At(a, MagicSize) {
      var o := TableOffset + trackId * RecordSize;
      SubSlice(a, MagicSize, |a|, o - MagicSize, o - MagicSize + 8);
      SubSlice(b, MagicSize, |b|, o - MagicSize, o - MagicSize + 8);
      ReadRecordLocal(a, b, o);
    }
  }

  /** For an id inside the table, the as-written parse finds its record. */
  lemma ParseIndexRoundTrip(index: seq<uint8>, ts: seq<TrackRecord>, i: uint16)
    requires LaidOut(index, ts) && i < |ts|
    ensures IndexReadable(index, i)
    ensures ParseIndex(index, i) == Found(ts[i])
  {
    assert ReadRecord(index, 18 + 8 * i) == ts[i];
  }

  /**
   The as-written parse accepts the id equal to the track count and reads
   a record that starts where the table ends.
   */
  lemma AcceptsIdEqualToCount(index: seq<uint8>, ts: seq<TrackRecord>)
    requires LaidOut(index, ts)
    requires 18 + 8 * |ts| + 8 <= |index|
    ensures IndexReadable(index, |ts|)
    ensures ParseIndex(index, |ts|).Found?
    ensures ParseIndex(index, |ts|).record == ReadRecord(index, 18 + 8 * |ts|)
  {
  }

  /**
   An index sector holding an empty table followed by zero bytes: as
   written, track 0 is played from a record that is not in the table.
   */
  lemma EmptyTablePlaysTrackZero()
    ensures var index := EncodeMap([]) + [0, 0, 0, 0, 0, 0, 0, 0];
            && IndexReadable(index, 0)
            && ParseIndex(index, 0) == Found(TrackRecord(0, 0, 0))
            && IndexReadableIntended(index, 0)
            && ParseIndexIntended(index, 0) == InvalidTrack(0)
  {
    var index := EncodeMap([]) + [0, 0, 0, 0, 0, 0, 0, 0];
    assert index[..|EncodeMap([])|] == EncodeMap([]);
    EncodedMapIsLaidOut(index, []);
  }

  /**
   The intended parse inverts the layout: ids inside the table give their
   record, every other id is refused with the table's count.
   */
  lemma ParseIndexIntendedRoundTrip(index: seq<uint8>, ts: seq<TrackRecord>, i: uint16)
    requires LaidOut(index, ts)
    ensures IndexReadableIntended(index, i)
    ensures ParseIndexIntended(index, i) == if i < |ts| then Found(ts[i]) else InvalidTrack(|ts| as uint16)
  {
    if i < |ts| {
      assert ReadRecord(index, 18 + 8 * i) == ts[i];
    }
  }

  /** One buffer handed to playback: the sector read into it and its sample count. */
  datatype Played = Played(sector: nat, sampleCount: uint8)

  datatype PlayResult = Rejected(trackCount: uint16) | Completed(record: TrackRecord, submissions: seq<Played>)

  /** Every sector of the track is on the card and one sector long. */
  predicate SectorsPresent(disk: map<nat, seq<uint8>>, rec: TrackRecord, sectorSize: nat)
  {
    forall s: nat :: rec.sector <= s < rec.sector + rec.count ==> s in disk && |disk[s]| == sectorSize
  }

  /**
   play_track. The card is `disk`, from sector number to contents; sector 0
   holds the index. Blocking buffer acquisition and read errors (which are
   only printed) are not modelled.
   */
  method PlayTrack(disk: map<nat, seq<uint8>>, trackId: uint16, sectorSize: nat) returns (r: PlayResult)
    requires sectorSize >= 4
    requires 0 in disk && IndexReadable(disk[0], trackId)
    requires ParseIndex(disk[0], trackId).Found? ==> SectorsPresent(disk, ParseIndex(disk[0], trackId).record, sectorSize)
    ensures r.Rejected? <==> trackId > U16At(disk[0], 16)
    ensures r.Rejected? ==> r.trackCount == U16At(disk[0], 16)
    ensures r.Completed? ==> r.record == ReadRecord(disk[0], 18 + 8 * trackId)
    ensures r.Completed? ==>
      && |r.submissions| == r.record.count
      && (forall i :: 0 <= i < |r.submissions| ==>
            && r.submissions[i].sector == r.record.sector + i
            && r.submissions[i].sector in disk
            && r.submissions[i].sampleCount == disk[r.submissions[i].sector][sectorSize - 4])
    ensures r.Completed? ==>
      forall i, j :: 0 <= i < j < |r.submissions| ==> r.submissions[i].sector < r.submissions[j].sector
  {
    var parsed := ParseIndex(disk[0], trackId);
    if parsed.InvalidTrack? {
      return Rejected(parsed.trackCount);
    }
    var rec := parsed.record;
    var submissions: seq<Played> := [];
    var i := 0;
    while i < rec.count
      invariant 0 <= i <= rec.count
      invariant |submissions| == i
      invariant forall k :: 0 <= k < i ==>
        && submissions[k].sector == rec.sector + k
        && submissions[k].sector in disk
        && submissions[k].sampleCount == disk[submissions[k].sector][sectorSize - 4]
    {
      var sector := rec.sector + i;
      var (sampleCount, _) := ReadU8(Reader(disk[sector], sectorSize - 4));
      submissions := submissions + [Played(sector, sampleCount)];
      i := i + 1;
    }
    return Completed(rec, submissions);
  }
}
