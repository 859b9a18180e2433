/**
 The audio map (audio_renderer/audio_renderer.c, region sd_audio_map): the
 index sector that says where each track lies on the SD card. Its layout is
 a 16-byte magic string, a u16 track count, then one 8-byte record per track
 (u16 id, u32 first sector, u16 sector count), all little-endian.
 */
module AudioMap {
  import opened Types
  import opened ByteReader

  const MagicSize := 16
  const RecordSize := 8
  /** Offset of the first record in the documented layout: magic plus track count. */
  const TableOffset := 18
  /** Offset that read_track_data actually adds `id * 8` to. */
  const LookupOffset := 16

  /** The bytes of "RETROFIST_AUDIO!". */
  const Magic: seq<uint8> :=
    [0x52, 0x45, 0x54, 0x52, 0x4F, 0x46, 0x49, 0x53, 0x54, 0x5F, 0x41, 0x55, 0x44, 0x49, 0x4F, 0x21]

  lemma MagicSpellsHeader()
    ensures |Magic| == MagicSize
    ensures forall i :: 0 <= i < MagicSize ==> Magic[i] == "RETROFIST_AUDIO!"[i] as int
  {
  }

  /**
   strncmp(data, "RETROFIST_AUDIO!", 16) == 0. The string has no NUL in its
   first 16 bytes, so the comparison is zero exactly when the first 16 bytes
   of data are the magic. A region shorter than 16 bytes is taken as a
   mismatch.
   */
  predicate HasMagic(data: seq<uint8>)
  {
    |data| >= MagicSize && data[..MagicSize] == Magic
  }

  /** Where a track lies on the card: first sector and number of sectors. */
  datatype TrackLocation = TrackLocation(sector: uint32, count: uint16)

  /** One record of the index. */
  datatype TrackRecord = TrackRecord(id: uint16, sector: uint32, count: uint16)

  /**
   set_audio_sd_map as written: the test `!strncmp(...)` is true when the
   magic MATCHES, so a map with the right header is refused and the old map
   kept, while any other data replaces the stored map. The result is the
   function's return value and the map stored afterwards.
   */
  function SetAudioSdMap(current: Option<seq<uint8>>, data: seq<uint8>): (res: (bool, Option<seq<uint8>>))
    ensures res.0 <==> !HasMagic(data)
    ensures res.0 ==> res.1 == Some(data)
    ensures !res.0 ==> res.1 == current
  {
    if HasMagic(data) then (false, current) else (true, Some(data))
  }

  /** The evidently intended check: store the map exactly when the header is right. */
  function SetAudioSdMapIntended(current: Option<seq<uint8>>, data: seq<uint8>): (res: (bool, Option<seq<uint8>>))
    ensures res.0 <==> HasMagic(data)
    ensures res.0 ==> res.1 == Some(data)
    ensures !res.0 ==> res.1 == current
  {
    if HasMagic(data) then (true, Some(data)) else (false, current)
  }

  /**
   The bytes a lookup at `tableOffset` touches lie inside the map: the id
   field always, the rest of the record only when the id matches.
   */
  predicate LookupSafe(audioMap: Option<seq<uint8>>, id: uint16, tableOffset: nat)
  {
    audioMap.Some? ==>
      var data := audioMap.value;
      var o := tableOffset + id * RecordSize;
      && o + 2 <= |data|
      && (U16At(data, o) == id ==> o + RecordSize <= |data|)
  }

  /**
   Read the record for `id` at `tableOffset + id * 8` with a byte reader:
   fail when no map is stored or when the stored id differs from `id`,
   otherwise return the sector and count that follow the id.
   */
  function LookupAt(audioMap: Option<seq<uint8>>, id: uint16, tableOffset: nat): (r: Option<TrackLocation>)
    requires LookupSafe(audioMap, id, tableOffset)
    ensures audioMap.None? ==> r.None?
    ensures audioMap.Some? ==>
      var o := tableOffset + id * RecordSize;
      && (r.Some? <==> U16At(audioMap.value, o) == id)
      && (r.Some? ==> r.value == TrackLocation(U32At(audioMap.value, o + 2), U16At(audioMap.value, o + 6)))
  {
    if audioMap.None? then None
    else
      var reader := Reader(audioMap.value, tableOffset + id * RecordSize);
      var (recordId, reader) := ReadU16(reader);
      if recordId != id then None
      else
        var (sector, reader) := ReadU32(reader);
        var (count, _) := ReadU16(reader);
        Some(TrackLocation(sector, count))
  }

  /**
   read_track_data as written: the record for `id` is read at `16 + id * 8`,
   which overlaps the track count and the tail of the previous record.
   */
  function ReadTrackData(audioMap: Option<seq<uint8>>, id: uint16): (r: Option<TrackLocation>)
    requires LookupSafe(audioMap, id, LookupOffset)
    ensures audioMap.None? ==> r.None?
    ensures audioMap.Some? ==>
      && (r.Some? <==> U16At(audioMap.value, 16 + id * 8) == id)
      && (r.Some? ==> r.value == TrackLocation(U32At(audioMap.value, 18 + id * 8), U16At(audioMap.value, 22 + id * 8)))
  {
    LookupAt(audioMap, id, LookupOffset)
  }

  /** The lookup with records at `18 + id * 8`, where the layout puts them. */
  function ReadTrackDataIntended(audioMap: Option<seq<uint8>>, id: uint16): (r: Option<TrackLocation>)
    requires LookupSafe(audioMap, id, TableOffset)
    ensures audioMap.None? ==> r.None?
    ensures audioMap.Some? ==>
      && (r.Some? <==> U16At(audioMap.value, 18 + id * 8) == id)
      && (r.Some? ==> r.value == TrackLocation(U32At(audioMap.value, 20 + id * 8), U16At(audioMap.value, 24 + id * 8)))
  {
    LookupAt(audioMap, id, TableOffset)
  }

  /** The record that starts at byte `o`, read field by field. */
  function ReadRecord(data: seq<uint8>, o: int): (t: TrackRecord)
    requires 0 <= o && o + RecordSize <= |data|
    ensures t == TrackRecord(U16At(data, o), U32At(data, o + 2), U16At(data, o + 6))
  {
    var reader := Reader(data, o);
    var (id, reader) := ReadU16(reader);
    var (sector, reader) := ReadU32(reader);
    var (count, _) := ReadU16(reader);
    TrackRecord(id, sector, count)
  }

  // ---------------------------------------------------------------------
  // The documented layout, as an encoder: the reference the lookups are
  // measured against.

  function EncodeRecord(t: TrackRecord): (s: seq<uint8>)
    ensures |s| == RecordSize
    ensures s[0..2] == LittleEndianBytes(t.id, 2)
    ensures s[2..6] == LittleEndianBytes(t.sector, 4)
    ensures s[6..8] == LittleEndianBytes(t.count, 2)
  {
    Pow256Values();
    LittleEndianBytes(t.id, 2) + LittleEndianBytes(t.sector, 4) + LittleEndianBytes(t.count, 2)
  }

  function EncodeRecords(ts: seq<TrackRecord>): (s: seq<uint8>)
    ensures |s| == RecordSize * |ts|
  {
    if |ts| == 0 then [] else EncodeRecord(ts[0]) + EncodeRecords(ts[1..])
  }

  /** A map in the documented layout holding the records `ts`. */
  function EncodeMap(ts: seq<TrackRecord>): (s: seq<uint8>)
    requires |ts| < 0x1_0000
    ensures |s| == TableOffset + RecordSize * |ts|
    ensures s[..MagicSize] == Magic
    ensures s[MagicSize .. TableOffset] == LittleEndianBytes(|ts|, 2)
    ensures s[TableOffset..] == EncodeRecords(ts)
  {
    Pow256Values();
    var s := Magic + LittleEndianBytes(|ts|, 2) + EncodeRecords(ts);
    assert s[..MagicSize] == Magic;
    assert s[MagicSize .. TableOffset] == LittleEndianBytes(|ts|, 2);
    assert s[TableOffset..] == EncodeRecords(ts);
    s
  }

  /** Every record's id is its position: the index the lookup expects. */
  predicate Dense(ts: seq<TrackRecord>)
  {
    forall i :: 0 <= i < |ts| ==> ts[i].id == i
  }

  /** Record i of the encoding occupies bytes 8i .. 8i+8. */
  lemma {:induction false} EncodeRecordsAt(ts: seq<TrackRecord>, i: nat)
    requires i < |ts|
    ensures EncodeRecords(ts)[8 * i .. 8 * i + 8] == EncodeRecord(ts[i])
  {
    var s := EncodeRecords(ts);
    assert s == EncodeRecord(ts[0]) + EncodeRecords(ts[1..]);
    if i > 0 {
      EncodeRecordsAt(ts[1..], i - 1);
      assert s[8..] == EncodeRecords(ts[1..]);
      assert s[8 * i .. 8 * i + 8] == s[8..][8 * (i - 1) .. 8 * (i - 1) + 8];
    }
  }

  /** Any region that begins with the encoding of `ts`. */
  predicate StartsWithMap(data: seq<uint8>, ts: seq<TrackRecord>)
  {
    |ts| < 0x1_0000 && |EncodeMap(ts)| <= |data| && data[..|EncodeMap(ts)|] == EncodeMap(ts)
  }

  /** The header and the track count of an encoded map read back. */
  lemma EncodedHeader(data: seq<uint8>, ts: seq<TrackRecord>)
    requires StartsWithMap(data, ts)
    ensures HasMagic(data)
    ensures U16At(data, MagicSize) == |ts|
  {
    var e := EncodeMap(ts);
    assert data[..MagicSize] == e[..MagicSize];
    assert data[MagicSize .. TableOffset] == e[MagicSize .. TableOffset];
    U16AtEncoded(data, MagicSize, |ts|);
  }

  /** The bytes of record i of an encoded map. */
  lemma EncodedRecordBytes(data: seq<uint8>, ts: seq<TrackRecord>, i: nat)
    requires StartsWithMap(data, ts)
    requires i < |ts|
    ensures 18 + 8 * i + 8 <= |data|
    ensures data[18 + 8 * i .. 18 + 8 * i + 8] == EncodeRecord(ts[i])
  {
    var e := EncodeMap(ts);
    var o := 18 + 8 * i;
    EncodeRecordsAt(ts, i);
    SubSlice(e, TableOffset, |e|, 8 * i, 8 * i + 8);
    SubSlice(data, 0, |e|, o, o + 8);
  }

  lemma SubSlice(a: seq<uint8>, i: int, j: int, k: int, l: int)
    requires 0 <= i <= j <= |a| && 0 <= k <= l <= j - i
    ensures a[i..j][k..l] == a[i + k .. i + l]
  {
    assert |a[i..j][k..l]| == l - k == |a[i + k .. i + l]|;
    forall m | 0 <= m < l - k
      ensures a[i..j][k..l][m] == a[i + k .. i + l][m]
    {
      assert a[i..j][k..l][m] == a[i..j][k + m] == a[i + k + m];
    }
  }

  /** A record read looks at its eight bytes and nothing else. */
  lemma ReadRecordLocal(a: seq<uint8>, b: seq<uint8>, o: int)
    requires 0 <= o && o + 8 <= |a| && o + 8 <= |b|
    requires a[o .. o + 8] == b[o .. o + 8]
    ensures ReadRecord(a, o) == ReadRecord(b, o)
  {
    var s := a[o .. o + 8];
    assert a[o] == s[0] == b[o] && a[o + 1] == s[1] == b[o + 1];
    assert a[o + 2] == s[2] == b[o + 2] && a[o + 3] == s[3] == b[o + 3];
    assert a[o + 4] == s[4] == b[o + 4] && a[o + 5] == s[5] == b[o + 5];
    assert a[o + 6] == s[6] == b[o + 6] && a[o + 7] == s[7] == b[o + 7];
  }

  /** An encoded record reads back field by field. */
  lemma RecordBytesRead(data: seq<uint8>, o: int, t: TrackRecord)
    requires 0 <= o && o + 8 <= |data|
    requires data[o .. o + 8] == EncodeRecord(t)
    ensures ReadRecord(data, o) == t
  {
    var rec := data[o .. o + 8];
    SubSlice(data, o, o + 8, 0, 2);
    SubSlice(data, o, o + 8, 2, 6);
    SubSlice(data, o, o + 8, 6, 8);
    U16AtEncoded(data, o, t.id);
    U32AtEncoded(data, o + 2, t.sector);
    U16AtEncoded(data, o + 6, t.count);
  }

  /** The fields of record i of an encoded map read back at 18 + 8i. */
  lemma EncodedRecordFields(data: seq<uint8>, ts: seq<TrackRecord>, i: nat)
    requires StartsWithMap(data, ts)
    requires i < |ts|
    ensures 18 + 8 * i + 8 <= |data|
    ensures ReadRecord(data, 18 + 8 * i) == ts[i]
  {
    EncodedRecordBytes(data, ts, i);
    RecordBytesRead(data, 18 + 8 * i, ts[i]);
  }

  /**
   The table of a map laid out as documented, seen through the reader: the
   track count at 16 and record i at 18 + 8i.
   */
  predicate LaidOut(data: seq<uint8>, ts: seq<TrackRecord>)
  {
    && |ts| < 0x1_0000
    && 18 + 8 * |ts| <= |data|
    && U16At(data, MagicSize) == |ts|
    && forall i :: 0 <= i < |ts| ==> ReadRecord(data, 18 + 8 * i) == ts[i]
  }

  /** Everything the encoder writes reads back: an encoded map is laid out as documented. */
  lemma EncodedMapIsLaidOut(data: seq<uint8>, ts: seq<TrackRecord>)
    requires StartsWithMap(data, ts)
    ensures LaidOut(data, ts)
  {
    EncodedHeader(data, ts);
    forall i | 0 <= i < |ts|
      ensures ReadRecord(data, 18 + 8 * i) == ts[i]
    {
      EncodedRecordFields(data, ts, i);
    }
  }

  /** The encoder's own output starts with itself. */
  lemma EncodeMapIsLaidOut(ts: seq<TrackRecord>)
    requires |ts| < 0x1_0000
    ensures LaidOut(EncodeMap(ts), ts)
  {
    var e := EncodeMap(ts);
    assert e[..|e|] == e;
    EncodedMapIsLaidOut(e, ts);
  }

  /**
   The intended lookup inverts the layout: in a dense map, track i is found
   at exactly the sector and count it was stored with.
   */
  lemma LookupIntendedRoundTrip(data: seq<uint8>, ts: seq<TrackRecord>, i: uint16)
    requires LaidOut(data, ts) && Dense(ts) && i < |ts|
    ensures LookupSafe(Some(data), i, TableOffset)
    ensures ReadTrackDataIntended(Some(data), i) == Some(TrackLocation(ts[i].sector, ts[i].count))
  {
    assert ReadRecord(data, 18 + 8 * i) == ts[i];
  }

  /** A correctly headed map is refused by the code as written, and nothing is stored. */
  lemma WellFormedMapIsRejected(current: Option<seq<uint8>>, ts: seq<TrackRecord>)
    requires |ts| < 0x1_0000
    ensures SetAudioSdMap(current, EncodeMap(ts)) == (false, current)
  {
    var e := EncodeMap(ts);
    assert e[..|e|] == e;
    EncodedHeader(e, ts);
  }

  /** The intended check stores every correctly headed map. */
  lemma WellFormedMapIsStoredIntended(current: Option<seq<uint8>>, ts: seq<TrackRecord>)
    requires |ts| < 0x1_0000
    ensures SetAudioSdMapIntended(current, EncodeMap(ts)) == (true, Some(EncodeMap(ts)))
  {
    var e := EncodeMap(ts);
    assert e[..|e|] == e;
    EncodedHeader(e, ts);
  }

  /**
   As written, the lookup of track 0 reads the track count as its id, so in
   any non-empty map in the documented layout track 0 is never found.
   */
  lemma TrackZeroNeverFound(data: seq<uint8>, ts: seq<TrackRecord>)
    requires LaidOut(data, ts) && |ts| > 0
    ensures LookupSafe(Some(data), 0, LookupOffset)
    ensures ReadTrackData(Some(data), 0) == None
  {
  }

  /**
   The location a lookup reads when it is two bytes early over record t:
   the id joined to the low half of the sector as the sector, and the high
   half of the sector as the count.
   */
  function Straddle(t: TrackRecord): TrackLocation
  {
    TrackLocation(t.id + 0x1_0000 * (t.sector % 0x1_0000), t.sector / 0x1_0000)
  }

  /**
   As written, the lookup of track i > 0 reads the sector count of record
   i - 1 as the id, then the id and low half of record i's sector as the
   sector, then the high half of that sector as the count.
   */
  lemma ShiftedLookup(data: seq<uint8>, ts: seq<TrackRecord>, i: uint16)
    requires LaidOut(data, ts) && 0 < i < |ts|
    ensures LookupSafe(Some(data), i, LookupOffset)
    ensures ReadTrackData(Some(data), i) == if ts[i - 1].count == i then Some(Straddle(ts[i])) else None
  {
    ConsecutiveRecords(data, ts, i);
    ShiftedRecords(data, i, ts[i - 1], ts[i]);
  }

  lemma ConsecutiveRecords(data: seq<uint8>, ts: seq<TrackRecord>, i: nat)
    requires LaidOut(data, ts) && 0 < i < |ts|
    ensures 18 + 8 * i + 8 <= |data|
    ensures ReadRecord(data, 10 + 8 * i) == ts[i - 1]
    ensures ReadRecord(data, 18 + 8 * i) == ts[i]
  {
    assert ReadRecord(data, 18 + 8 * (i - 1)) == ts[i - 1];
  }

  /**
   A one-track map in the documented layout: as written, its only track is
   not found; with the intended offset it is.
   */
  lemma OneTrackMapLookup()
    ensures var data := EncodeMap([TrackRecord(0, 5, 3)]);
            && LookupSafe(Some(data), 0, LookupOffset)
            && ReadTrackData(Some(data), 0) == None
            && LookupSafe(Some(data), 0, TableOffset)
            && ReadTrackDataIntended(Some(data), 0) == Some(TrackLocation(5, 3))
  {
    var ts := [TrackRecord(0, 5, 3)];
    EncodeMapIsLaidOut(ts);
    OneTrackLaidOut(EncodeMap(ts));
  }

  /** The same, for any region laid out with that single record. */
  lemma OneTrackLaidOut(data: seq<uint8>)
    requires LaidOut(data, [TrackRecord(0, 5, 3)])
    ensures LookupSafe(Some(data), 0, LookupOffset)
    ensures ReadTrackData(Some(data), 0) == None
    ensures LookupSafe(Some(data), 0, TableOffset)
    ensures ReadTrackDataIntended(Some(data), 0) == Some(TrackLocation(5, 3))
  {
    var ts := [TrackRecord(0, 5, 3)];
    TrackZeroNeverFound(data, ts);
    LookupIntendedRoundTrip(data, ts, 0);
  }

  /** The shifted read of id i over two consecutive records i - 1 and i. */
  lemma ShiftedRecords(data: seq<uint8>, i: uint16, prev: TrackRecord, cur: TrackRecord)
    requires 0 < i && 18 + 8 * i + 8 <= |data|
    requires ReadRecord(data, 10 + 8 * i) == prev
    requires ReadRecord(data, 18 + 8 * i) == cur
    ensures LookupSafe(Some(data), i, LookupOffset)
    ensures ReadTrackData(Some(data), i) == if prev.count == i then Some(Straddle(cur)) else None
  {
    ShiftedIdTest(data, i, prev);
    if prev.count == i {
      ShiftedMatch(data, i, cur);
    }
  }

  /** The id the shifted read compares is the sector count of record i - 1. */
  lemma ShiftedIdTest(data: seq<uint8>, i: uint16, prev: TrackRecord)
    requires 0 < i && 18 + 8 * i + 8 <= |data|
    requires ReadRecord(data, 10 + 8 * i) == prev
    ensures LookupSafe(Some(data), i, LookupOffset)
    ensures ReadTrackData(Some(data), i).Some? <==> prev.count == i
  {
    var o := 16 + 8 * i;
    assert o == LookupOffset + i * RecordSize == 16 + i * 8;
    assert U16At(data, o) == prev.count;
  }

  /** When that id matches, the fields read are the id/sector halves of record i. */
  lemma ShiftedMatch(data: seq<uint8>, i: uint16, cur: TrackRecord)
    requires 0 < i && 18 + 8 * i + 8 <= |data|
    requires ReadRecord(data, 18 + 8 * i) == cur
    requires U16At(data, 16 + 8 * i) == i
    ensures LookupSafe(Some(data), i, LookupOffset)
    ensures ReadTrackData(Some(data), i) == Some(Straddle(cur))
  {
    ShiftedFields(data, 18 + 8 * i, cur);
    MatchedLookup(data, i);
  }

  /** A lookup whose id matches returns the u32 and u16 that follow the id. */
  lemma MatchedLookup(data: seq<uint8>, i: uint16)
    requires 16 + 8 * i + 8 <= |data|
    requires U16At(data, 16 + 8 * i) == i
    ensures LookupSafe(Some(data), i, LookupOffset)
    ensures ReadTrackData(Some(data), i) == Some(TrackLocation(U32At(data, 18 + 8 * i), U16At(data, 22 + 8 * i)))
  {
    var o := 16 + 8 * i;
    assert o == LookupOffset + i * RecordSize == 16 + i * 8;
    assert o + 2 == 18 + i * 8 && o + 6 == 22 + i * 8;
  }

  /**
   Reading a u32 and a u16 at the start of a record gives its id joined to
   the low half of its sector, and the high half of its sector.
   */
  lemma ShiftedFields(data: seq<uint8>, o: int, cur: TrackRecord)
    requires 0 <= o && o + 8 <= |data|
    requires ReadRecord(data, o) == cur
    ensures U32At(data, o) == cur.id + 0x1_0000 * (cur.sector % 0x1_0000)
    ensures U16At(data, o + 4) == cur.sector / 0x1_0000
    ensures TrackLocation(U32At(data, o), U16At(data, o + 4)) == Straddle(cur)
  {
    U32Halves(data, o);
    U32Halves(data, o + 2);
    SplitHalves(cur.sector, U16At(data, o + 2), U16At(data, o + 4));
  }

  /** A u32 field is its low u16 plus 65536 times its high u16. */
  lemma U32Halves(data: seq<uint8>, o: int)
    requires 0 <= o && o + 4 <= |data|
    ensures U32At(data, o) == U16At(data, o) + 0x1_0000 * U16At(data, o + 2)
  {
  }

  lemma SplitHalves(v: int, lo: int, hi: int)
    requires 0 <= lo < 0x1_0000 && v == lo + 0x1_0000 * hi
    ensures v % 0x1_0000 == lo && v / 0x1_0000 == hi
  {
  }
}
