/**
 A cursor over a byte region (serialization/bytereader.c). Reads copy a
 fixed-width field out of the region with memcpy, so the value is in host
 byte order, which is little-endian on the RP2040. The cursor performs no
 bounds check: every read below demands that the field lies in the region.
 */
module ByteReader {
  import opened Types

  /** 256 to the power n: one more than the largest n-byte value. */
  function Pow256(n: nat): (p: nat)
    ensures p >= 1
  {
    if n == 0 then 1 else 0x100 * Pow256(n - 1)
  }

  lemma Pow256Values()
    ensures Pow256(1) == 0x100 && Pow256(2) == 0x1_0000 && Pow256(4) == 0x1_0000_0000
  {
    assert Pow256(2) == 0x100 * Pow256(1);
    assert Pow256(4) == 0x100 * Pow256(3) == 0x1_0000 * Pow256(2);
  }

  /** The value of a byte string whose first byte is the least significant. */
  function LittleEndian(s: seq<uint8>): (v: nat)
    ensures v < Pow256(|s|)
  {
    if |s| == 0 then 0 else s[0] + 0x100 * LittleEndian(s[1..])
  }

  /** The `width` bytes that store `v` least significant first. */
  function LittleEndianBytes(v: nat, width: nat): (s: seq<uint8>)
    requires v < Pow256(width)
    ensures |s| == width
  {
    if width == 0 then [] else [v % 0x100] + LittleEndianBytes(v / 0x100, width - 1)
  }

  /** Decoding what was encoded gives the value back. */
  lemma {:induction false} DecodeEncode(v: nat, width: nat)
    requires v < Pow256(width)
    ensures LittleEndian(LittleEndianBytes(v, width)) == v
  {
    if width > 0 {
      var s := LittleEndianBytes(v, width);
      DecodeEncode(v / 0x100, width - 1);
      assert s[1..] == LittleEndianBytes(v / 0x100, width - 1);
    }
  }

  /** Encoding what was decoded gives the bytes back. */
  lemma {:induction false} EncodeDecode(s: seq<uint8>)
    ensures LittleEndianBytes(LittleEndian(s), |s|) == s
  {
    if |s| > 0 {
      EncodeDecode(s[1..]);
      var v := LittleEndian(s);
      assert v % 0x100 == s[0];
      assert v / 0x100 == LittleEndian(s[1..]);
    }
  }

  /** The little-endian u16 stored at byte offset o, written out byte by byte. */
  function U16At(bytes: seq<uint8>, o: int): uint16
    requires 0 <= o && o + 2 <= |bytes|
  {
    bytes[o] as int + 0x100 * bytes[o + 1] as int
  }

  /** The little-endian u32 stored at byte offset o, written out byte by byte. */
  function U32At(bytes: seq<uint8>, o: int): uint32
    requires 0 <= o && o + 4 <= |bytes|
  {
    bytes[o] as int + 0x100 * bytes[o + 1] as int + 0x1_0000 * bytes[o + 2] as int + 0x100_0000 * bytes[o + 3] as int
  }

  lemma LittleEndian2(s: seq<uint8>)
    requires |s| == 2
    ensures LittleEndian(s) == s[0] as int + 0x100 * s[1] as int
  {
    assert LittleEndian(s[1..]) == s[1] + 0x100 * LittleEndian(s[2..]);
  }

  lemma LittleEndian4(s: seq<uint8>)
    requires |s| == 4
    ensures LittleEndian(s) == s[0] as int + 0x100 * s[1] as int + 0x1_0000 * s[2] as int + 0x100_0000 * s[3] as int
  {
    LittleEndian2(s[2..]);
    assert LittleEndian(s[1..]) == s[1] + 0x100 * LittleEndian(s[2..]);
  }

  /** A field of `width` bytes encoding `v` reads back as `v` through U16At / U32At. */
  lemma U16AtEncoded(bytes: seq<uint8>, o: int, v: uint16)
    requires 0 <= o && o + 2 <= |bytes|
    requires bytes[o .. o + 2] == LittleEndianBytes(v, 2)
    ensures U16At(bytes, o) == v
  {
    LittleEndian2(bytes[o .. o + 2]);
    DecodeEncode(v, 2);
  }

  lemma U32AtEncoded(bytes: seq<uint8>, o: int, v: uint32)
    requires 0 <= o && o + 4 <= |bytes|
    requires bytes[o .. o + 4] == LittleEndianBytes(v, 4)
    ensures U32At(bytes, o) == v
  {
    LittleEndian4(bytes[o .. o + 4]);
    DecodeEncode(v, 4);
  }

  /** The cursor: the region it reads and the offset of the next read. */
  datatype Reader = Reader(bytes: seq<uint8>, offset: int)

  /** A field of `width` bytes at the cursor lies inside the region. */
  predicate CanRead(r: Reader, width: nat)
  {
    0 <= r.offset && r.offset + width <= |r.bytes|
  }

  /** bytereader_skip: move the cursor forward without reading. */
  function Skip(r: Reader, n: int): (r': Reader)
    ensures r'.bytes == r.bytes
    ensures r'.offset - r.offset == n
  {
    r.(offset := r.offset + n)
  }

  /** Copy `width` bytes at the cursor into a host-order integer and advance. */
  function Read(r: Reader, width: nat): (res: (nat, Reader))
    requires CanRead(r, width)
    ensures res.0 < Pow256(width)
    ensures res.1 == Skip(r, width)
  {
    (LittleEndian(r.bytes[r.offset .. r.offset + width]), Skip(r, width))
  }

  /** bytereader_read_u8 */
  function ReadU8(r: Reader): (res: (uint8, Reader))
    requires CanRead(r, 1)
    ensures res.0 == r.bytes[r.offset]
    ensures res.1.bytes == r.bytes && res.1.offset == r.offset + 1
  {
    Pow256Values();
    var (v, r') := Read(r, 1);
    assert LittleEndian(r.bytes[r.offset .. r.offset + 1][1..]) == 0;
    (v, r')
  }

  /** bytereader_read_u16 */
  function ReadU16(r: Reader): (res: (uint16, Reader))
    requires CanRead(r, 2)
    ensures res.0 == r.bytes[r.offset] as int + 0x100 * r.bytes[r.offset + 1] as int
    ensures res.1.bytes == r.bytes && res.1.offset == r.offset + 2
  {
    Pow256Values();
    LittleEndian2(r.bytes[r.offset .. r.offset + 2]);
    var (v, r') := Read(r, 2);
    (v, r')
  }

  /** bytereader_read_u32 */
  function ReadU32(r: Reader): (res: (uint32, Reader))
    requires CanRead(r, 4)
    ensures res.0 == U32At(r.bytes, r.offset)
    ensures res.1.bytes == r.bytes && res.1.offset == r.offset + 4
  {
    Pow256Values();
    LittleEndian4(r.bytes[r.offset .. r.offset + 4]);
    var (v, r') := Read(r, 4);
    (v, r')
  }

  /** Skips add up: two skips move the cursor by their sum. */
  lemma SkipTwice(r: Reader, m: int, n: int)
    ensures Skip(Skip(r, m), n) == Skip(r, m + n)
  {
  }

  /**
   A u16 read followed by a u32 read sees the same values as two independent
   reads at o and o + 2, and leaves the cursor at o + 6 over the same bytes.
   */
  lemma ReadU16ThenU32(r: Reader)
    requires CanRead(r, 6)
    ensures var (a, r1) := ReadU16(r);
            var (b, r2) := ReadU32(r1);
            && a == U16At(r.bytes, r.offset)
            && b == U32At(r.bytes, r.offset + 2)
            && r2 == Reader(r.bytes, r.offset + 6)
  {
  }
}
