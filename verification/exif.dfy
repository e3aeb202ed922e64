/**
 * The EXIF blob `formatToWebpSticker` attaches to a sticker: the 8-byte
 * little-endian image file header of TIFF Revision 6.0, section 2, then a
 * directory holding one 12-byte entry, followed by the UTF-8 JSON document
 * that entry points at. The directory lacks the 4-byte offset of the next
 * directory that section 2 requires after the entries: the JSON begins at
 * offset 22, where that offset would be.
 *
 *   offset  0..3   "II*\0"      byte order "II" and the magic number 42
 *   offset  4..7   8            offset of the first directory
 *   offset  8..9   1            number of directory entries
 *   offset 10..11  0x5741       entry tag
 *   offset 12..13  7            entry type UNDEFINED (raw bytes)
 *   offset 14..17  L            entry count: the JSON length, written last
 *   offset 18..21  22           entry value offset: where the JSON starts
 *   offset 22..    JSON bytes
 */
module Exif {
  import opened Wrappers

  /** One byte of a Node `Buffer`. */
  type byte = b: int | 0 <= b < 0x100

  const HeaderLength: nat := 22
  const CountOffset: nat := 14
  const TwoTo32: nat := 0x1_0000_0000

  /** The header as `exifAttr` spells it, before the count is written. */
  const Header: seq<byte> := [
    0x49, 0x49, 0x2a, 0x00, 0x08, 0x00, 0x00, 0x00, 0x01, 0x00, 0x41, 0x57,
    0x07, 0x00, 0x00, 0x00, 0x00, 0x00, 0x16, 0x00, 0x00, 0x00
  ]

  datatype ExifError = ValueOutOfRange

  /** `n` as an unsigned 32-bit little-endian field. */
  function UInt32LE(n: nat): (b: seq<byte>)
    requires n < TwoTo32
    ensures |b| == 4
  {
    [(n % 0x100), (n / 0x100 % 0x100),
     (n / 0x1_0000 % 0x100), (n / 0x100_0000)]
  }

  /** The number an unsigned 32-bit little-endian field holds. */
  function ReadUInt32LE(b: seq<byte>): (n: nat)
    requires |b| == 4
    ensures n < TwoTo32
  {
    b[0] as int + 0x100 * b[1] as int + 0x1_0000 * b[2] as int + 0x100_0000 * b[3] as int
  }

  /** Reading back a written field gives the number written. */
  lemma ReadWriteUInt32LE(n: nat)
    requires n < TwoTo32
    ensures ReadUInt32LE(UInt32LE(n)) == n
  {
    var b := UInt32LE(n);
    assert b[0] == n % 0x100;
    assert b[1] == n / 0x100 % 0x100;
    assert b[2] == n / 0x1_0000 % 0x100;
    assert b[3] == n / 0x100_0000;
    DigitsBase256(n);
  }

  lemma DigitsBase256(n: nat)
    requires n < TwoTo32
    ensures n == n % 0x100 + 0x100 * (n / 0x100 % 0x100)
               + 0x1_0000 * (n / 0x1_0000 % 0x100) + 0x100_0000 * (n / 0x100_0000)
  {
    var q1 := n / 0x100;
    var q2 := q1 / 0x100;
    var q3 := q2 / 0x100;
    assert n == n % 0x100 + 0x100 * q1;
    assert q1 == q1 % 0x100 + 0x100 * q2;
    assert q2 == q2 % 0x100 + 0x100 * q3;
    assert q2 == n / 0x1_0000;
    assert q3 == n / 0x100_0000;
  }

  /** Writing a field read from four bytes gives back those four bytes. */
  lemma WriteReadUInt32LE(b: seq<byte>)
    requires |b| == 4
    ensures UInt32LE(ReadUInt32LE(b)) == b
  {
    var n := ReadUInt32LE(b);
    var m2 := b[2] as int + 0x100 * b[3] as int;
    var m1 := b[1] as int + 0x100 * m2;
    assert n == b[0] as int + 0x100 * m1;
    SplitByte(b[0], m1);
    SplitByte(b[1], m2);
    SplitByte(b[2], b[3]);
    ShiftedBytes(n);
  }

  /** The low byte and the rest of `lo + 256 * hi`. */
  lemma SplitByte(lo: byte, hi: nat)
    ensures (lo + 0x100 * hi) % 0x100 == lo
    ensures (lo + 0x100 * hi) / 0x100 == hi
  {
  }

  /**
   * The blob for JSON bytes `json`: the header with the count at offset 14
   * replaced by `|json|`, then the JSON.
   */
  function ExifChunk(json: seq<byte>): (chunk: seq<byte>)
    requires |json| < TwoTo32
    ensures |chunk| == HeaderLength + |json|
    ensures chunk[..CountOffset] == Header[..CountOffset]
    ensures chunk[CountOffset..CountOffset + 4] == UInt32LE(|json|)
    ensures chunk[CountOffset + 4..HeaderLength] == Header[CountOffset + 4..]
    ensures chunk[HeaderLength..] == json
  {
    Header[..CountOffset] + UInt32LE(|json|) + Header[CountOffset + 4..] + json
  }

  /** The layout of the blob, byte by byte. */
  lemma ExifChunkLayout(json: seq<byte>)
    requires |json| < TwoTo32
    ensures |ExifChunk(json)| == HeaderLength + |json|
    ensures ExifChunk(json)[HeaderLength..] == json
    ensures ReadUInt32LE(ExifChunk(json)[14..18]) == |json|
    ensures ExifChunk(json)[..4] == [0x49, 0x49, 0x2a, 0x00]
    ensures ReadUInt32LE(ExifChunk(json)[4..8]) == 8
    ensures ExifChunk(json)[8..10] == [0x01, 0x00]
    ensures ExifChunk(json)[10..12] == [0x41, 0x57]
    ensures ExifChunk(json)[12..14] == [0x07, 0x00]
    ensures ReadUInt32LE(ExifChunk(json)[18..22]) == HeaderLength
    ensures forall i :: 0 <= i < HeaderLength && !(CountOffset <= i < CountOffset + 4) ==>
      ExifChunk(json)[i] == Header[i]
  {
    var c := ExifChunk(json);
    assert c[14..18] == UInt32LE(|json|);
    ReadWriteUInt32LE(|json|);
    HeaderFields(c);
  }

  /** The fixed fields of any blob whose bytes outside 14..17 agree with the header. */
  lemma HeaderFields(c: seq<byte>)
    requires |c| >= HeaderLength
    requires c[..CountOffset] == Header[..CountOffset]
    requires c[CountOffset + 4..HeaderLength] == Header[CountOffset + 4..]
    ensures forall i :: 0 <= i < HeaderLength && !(CountOffset <= i < CountOffset + 4) ==> c[i] == Header[i]
    ensures c[..4] == [0x49, 0x49, 0x2a, 0x00]
    ensures ReadUInt32LE(c[4..8]) == 8
    ensures c[8..10] == [0x01, 0x00]
    ensures c[10..12] == [0x41, 0x57]
    ensures c[12..14] == [0x07, 0x00]
    ensures ReadUInt32LE(c[18..22]) == HeaderLength
  {
    assert forall i :: 0 <= i < CountOffset ==> c[i] == Header[..CountOffset][i];
    assert forall i :: CountOffset + 4 <= i < HeaderLength ==> c[i] == Header[CountOffset + 4..][i - CountOffset - 4];
    assert c[4..8] == [c[4], c[5], c[6], c[7]];
    assert c[18..22] == [c[18], c[19], c[20], c[21]];
  }

  /**
   * A reader of the blob: check every fixed header byte, take the count at
   * offset 14 and return that many bytes from offset 22.
   */
  function ReadExifChunk(chunk: seq<byte>): (json: Option<seq<byte>>)
    ensures json.Some? ==> HeaderLength + |json.value| <= |chunk|
  {
    if |chunk| < HeaderLength
       || chunk[..CountOffset] != Header[..CountOffset]
       || chunk[CountOffset + 4..HeaderLength] != Header[CountOffset + 4..] then
      None
    else
      var count := ReadUInt32LE(chunk[CountOffset..CountOffset + 4]);
      if HeaderLength + count <= |chunk| then Some(chunk[HeaderLength..HeaderLength + count]) else None
  }

  /** The reader recovers exactly the JSON the blob was built from. */
  lemma ReadExifChunkRoundTrip(json: seq<byte>)
    requires |json| < TwoTo32
    ensures ReadExifChunk(ExifChunk(json)) == Some(json)
  {
    var c := ExifChunk(json);
    assert c[..CountOffset] == Header[..CountOffset];
    assert c[CountOffset + 4..HeaderLength] == Header[CountOffset + 4..];
    assert c[CountOffset..CountOffset + 4] == UInt32LE(|json|);
    ReadWriteUInt32LE(|json|);
    assert ReadUInt32LE(c[CountOffset..CountOffset + 4]) == |json|;
    assert c[HeaderLength..HeaderLength + |json|] == json;
  }

  /** A blob the reader accepts with nothing left over is the blob built from what it read. */
  lemma ReadExifChunkExact(chunk: seq<byte>)
    requires ReadExifChunk(chunk).Some?
    requires |chunk| == HeaderLength + |ReadExifChunk(chunk).value|
    ensures |ReadExifChunk(chunk).value| < TwoTo32
    ensures chunk == ExifChunk(ReadExifChunk(chunk).value)
  {
    var json := ReadExifChunk(chunk).value;
    var field := chunk[CountOffset..CountOffset + 4];
    assert |json| == ReadUInt32LE(field);
    WriteReadUInt32LE(field);
    assert chunk == chunk[..CountOffset] + field + chunk[CountOffset + 4..HeaderLength] + chunk[HeaderLength..];
  }

  /** `Buffer.concat([a, b])`: a fresh buffer holding `a` followed by `b`. */
  method Concat(a: seq<byte>, b: seq<byte>) returns (buf: array<byte>)
    ensures fresh(buf)
    ensures buf[..] == a + b
  {
    buf := new byte[|a| + |b|];
    var i := 0;
    while i < buf.Length
      invariant 0 <= i <= buf.Length
      invariant forall j :: 0 <= j < i ==> buf[j] == (a + b)[j]
    {
      buf[i] := if i < |a| then a[i] else b[i - |a|];
      i := i + 1;
    }
    assert buf[..] == a + b;
  }

  /**
   * `buf.writeUIntLE(value, offset, 4)`: stores `value` at `offset`, low
   * byte first, shifting it right by eight bits after each byte; a value of
   * 2^32 or more is a range error and leaves the buffer as it was.
   */
  method WriteUInt32LE(buf: array<byte>, value: nat, offset: nat) returns (ok: bool)
    requires offset + 4 <= buf.Length
    modifies buf
    ensures ok <==> value < TwoTo32
    ensures ok ==> buf[..] == old(buf[..])[..offset] + UInt32LE(value) + old(buf[..])[offset + 4..]
    ensures !ok ==> buf[..] == old(buf[..])
  {
    if value >= TwoTo32 {
      return false;
    }
    ShiftedBytes(value);
    var v := value;
    buf[offset] := v % 0x100;
    v := v / 0x100;
    buf[offset + 1] := v % 0x100;
    v := v / 0x100;
    buf[offset + 2] := v % 0x100;
    v := v / 0x100;
    buf[offset + 3] := v % 0x100;
    assert buf[offset..offset + 4] == UInt32LE(value);
    assert buf[..] == buf[..offset] + buf[offset..offset + 4] + buf[offset + 4..];
    return true;
  }

  /**
   * Builds the blob as the source does: the header and the JSON are copied
   * into one buffer, then the length is written over offsets 14..17; a
   * length that does not fit in 32 bits raises the range error.
   */
  method BuildExif(json: seq<byte>) returns (r: Result<seq<byte>, ExifError>)
    ensures r.Failure? <==> |json| >= TwoTo32
    ensures r.Failure? ==> r.error == ValueOutOfRange
    ensures r.Success? ==> r.value == ExifChunk(json)
  {
    var exif := Concat(Header, json);
    var ok := WriteUInt32LE(exif, |json|, CountOffset);
    if !ok {
      return Failure(ValueOutOfRange);
    }
    assert (Header + json)[..CountOffset] == Header[..CountOffset];
    assert (Header + json)[CountOffset + 4..] == Header[CountOffset + 4..] + json;
    r := Success(exif[..]);
  }

  /** Shifting right by eight bits twice or three times is dividing by 2^16 or 2^24. */
  lemma ShiftedBytes(n: nat)
    requires n < TwoTo32
    ensures n / 0x100 / 0x100 == n / 0x1_0000
    ensures n / 0x100 / 0x100 / 0x100 == n / 0x100_0000 < 0x100
  {
  }
}
