/**
 * The firmware metadata header (FirmwareHeader_t) that the update port
 * logs in front of every image: its 56-byte packed little-endian layout,
 * the header built from the caller's image details, and its checksum.
 */
module FirmwareHeader {
  import opened Words
  import opened Wrappers

  const HEADER_SIZE: nat := 56
  const SIZEOF_SHA256: nat := 32
  const FIRMWARE_HEADER_MAGIC: uint32 := 0x5a51b3d4
  const FIRMWARE_HEADER_VERSION: uint32 := 1
  /** offsetof(FirmwareHeader_t, firmwareSHA256) */
  const SHA256_OFFSET: nat := 24

  type Digest = s: seq<byte> | |s| == 32 witness seq(32, _ => 0)

  datatype Header = Header(
    magic: uint32,
    version: uint32,
    checksum: uint32,
    totalSize: uint32,
    firmwareVersion: uint64,
    firmwareSHA256: Digest)

  /** palImageHeaderDeails_t: size_t is 32 bits wide on the targets. */
  datatype ImageDetails = ImageDetails(imageSize: uint32, hash: seq<byte>, version: uint64)

  /** The checksum routine of the flash journal (flashJournalCrcCummulative after a reset). */
  type Crc = seq<byte> -> uint32

  /** The bytes of the struct in memory. */
  function Encode(h: Header): (r: seq<byte>)
    ensures |r| == HEADER_SIZE
    ensures r[SHA256_OFFSET..HEADER_SIZE] == h.firmwareSHA256
  {
    LittleEndian(h.magic, 4) + LittleEndian(h.version, 4) + LittleEndian(h.checksum, 4)
      + LittleEndian(h.totalSize, 4) + LittleEndian(h.firmwareVersion, 8) + h.firmwareSHA256
  }

  /** Reading a header back from its 56 bytes. */
  function Decode(b: seq<byte>): (r: Option<Header>)
    ensures r.Some? <==> |b| == HEADER_SIZE
  {
    if |b| != HEADER_SIZE then None
    else
      Some(Header(FromLittleEndian(b[0..4]), FromLittleEndian(b[4..8]),
                  FromLittleEndian(b[8..12]), FromLittleEndian(b[12..16]),
                  FromLittleEndian(b[16..24]), b[24..56]))
  }

  lemma DecodeEncode(h: Header)
    ensures Decode(Encode(h)) == Some(h)
  {
    var b := Encode(h);
    assert b[0..4] == LittleEndian(h.magic, 4);
    assert b[4..8] == LittleEndian(h.version, 4);
    assert b[8..12] == LittleEndian(h.checksum, 4);
    assert b[12..16] == LittleEndian(h.totalSize, 4);
    assert b[16..24] == LittleEndian(h.firmwareVersion, 8);
    assert Pow256(4) == TWO_32;
    assert Pow256(8) == TWO_64;
    FromLittleEndianInverse(h.magic, 4);
    FromLittleEndianInverse(h.version, 4);
    FromLittleEndianInverse(h.checksum, 4);
    FromLittleEndianInverse(h.totalSize, 4);
    FromLittleEndianInverse(h.firmwareVersion, 8);
  }

  lemma EncodeDecode(b: seq<byte>)
    requires |b| == HEADER_SIZE
    ensures Decode(b).Some? && Encode(Decode(b).value) == b
  {
    assert Pow256(4) == TWO_32;
    assert Pow256(8) == TWO_64;
    LittleEndianInverse(b[0..4]);
    LittleEndianInverse(b[4..8]);
    LittleEndianInverse(b[8..12]);
    LittleEndianInverse(b[12..16]);
    LittleEndianInverse(b[16..24]);
    assert b == b[0..4] + b[4..8] + b[8..12] + b[12..16] + b[16..24] + b[24..56];
  }

  /** The header's checksum is the CRC of its own bytes with the checksum field zeroed. */
  predicate Sealed(h: Header, crc: Crc) {
    h.checksum == crc(Encode(h.(checksum := 0)))
  }

  /** pal_plat_imageSetHeader: the header logged in front of the image. */
  function BuildHeader(d: ImageDetails, crc: Crc): (h: Header)
    requires |d.hash| >= SIZEOF_SHA256
    ensures h.magic == FIRMWARE_HEADER_MAGIC && h.version == FIRMWARE_HEADER_VERSION
    ensures h.totalSize == ToUint32(d.imageSize + HEADER_SIZE)
    ensures h.firmwareVersion == d.version
    ensures h.firmwareSHA256 == d.hash[..SIZEOF_SHA256]
    ensures Sealed(h, crc)
  {
    var unsealed := Header(FIRMWARE_HEADER_MAGIC, FIRMWARE_HEADER_VERSION, 0,
                           ToUint32(d.imageSize + HEADER_SIZE), d.version,
                           d.hash[..SIZEOF_SHA256]);
    unsealed.(checksum := crc(Encode(unsealed)))
  }

  /**
   * The number of image bytes the reader expects behind the header:
   * totalSize - sizeof(header) in uint32 arithmetic, stored in an int32.
   */
  function PayloadSize(h: Header): (r: int)
    ensures -0x8000_0000 <= r < 0x8000_0000
    ensures ToUint32(r + HEADER_SIZE) == h.totalSize
  {
    ToInt32(ToUint32(h.totalSize - HEADER_SIZE))
  }

  /**
   * The reader recovers the image size the writer recorded, whatever the
   * uint32 wrap of totalSize, up to the int32 reinterpretation.
   */
  lemma PayloadSizeOfBuiltHeader(d: ImageDetails, crc: Crc)
    requires |d.hash| >= SIZEOF_SHA256
    ensures PayloadSize(BuildHeader(d, crc)) == ToInt32(d.imageSize)
    ensures d.imageSize < 0x8000_0000 ==> PayloadSize(BuildHeader(d, crc)) == d.imageSize
  {
    var t := ToUint32(d.imageSize + HEADER_SIZE);
    if d.imageSize + HEADER_SIZE < TWO_32 {
      assert t == d.imageSize + HEADER_SIZE;
    } else {
      assert t == d.imageSize + HEADER_SIZE - TWO_32;
      assert t - HEADER_SIZE == d.imageSize - TWO_32;
    }
    assert ToUint32(t - HEADER_SIZE) == d.imageSize;
  }

  /**
   * Where the copy of the unlogged header bytes at pal_plat_update.cpp:958
   * reads from, as written: `&pal_pi_mbed_firmware_header + rc` advances the
   * struct pointer by rc whole headers, not by rc bytes. Any partly logged
   * header (rc > 0) is therefore read from outside the header object.
   */
  function ResidualSourceOffsetAsWritten(rc: nat): (offset: nat)
    ensures rc > 0 ==> offset >= HEADER_SIZE
    ensures rc == 0 ==> offset == 0
  {
    rc * HEADER_SIZE
  }

  /**
   * With a 32-byte program unit the journal logs 32 header bytes; the
   * remaining 24 are then copied from 1792 bytes past the header's start
   * rather than from byte 32.
   */
  lemma ResidualCopyWithUnit32()
    ensures ResidualSourceOffsetAsWritten(32) == 1792 != 32
    ensures ResidualSourceOffsetAsWritten(32) + (HEADER_SIZE - 32) > HEADER_SIZE
  {
  }
}
