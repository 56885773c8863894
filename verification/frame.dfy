/** The IT7260 touch frame: the 14-byte buffer the poll task reads from the
    sensor over I2C, and the bit layout from which the contact flag and the two
    12-bit coordinates are taken. */
module Frame {

  /** One byte of the frame (`unsigned char`). */
  type Byte = bv8

  /** Size of the poll task's receive buffer, `unsigned char buf[14]`. */
  const FrameSize: nat := 14

  /** The receive buffer. It always has its fourteen bytes: the driver zeroes
      it before every read, so it is never shorter, whatever the bus returns. */
  type RawFrame = s: seq<Byte> | |s| == FrameSize
    witness [0, 0, 0, 0, 0, 0, 0, 0, 0, 0, 0, 0, 0, 0]

  /** Byte offsets inside the frame that the decoder looks at. */
  const LowX: nat := 2
  const HighNibbles: nat := 3
  const LowY: nat := 4
  const EventByte: nat := 5

  /** Largest value a 12-bit coordinate can take, plus one. */
  const CoordLimit: int := 4096

  /** The three values the poll task takes out of a frame:
      `unsigned short xpos, ypos` and `unsigned char event`. */
  datatype Sample = Sample(xpos: bv16, ypos: bv16, event: Byte)
  {
    /** A touch is reported exactly when the event byte is non-zero. */
    predicate Contact() {
      event != 0
    }

    /** Both coordinates fit in twelve bits, as every decoded sample does. */
    predicate WellFormed() {
      xpos < 0x1000 && ypos < 0x1000
    }
  }

  /** The value of a 12-bit coordinate as plain arithmetic on the frame
      bytes: `high` contributes the upper four bits, `low` the lower eight.
      This is the reference the bitwise decoder is checked against. */
  function Coord(high: Byte, low: Byte): int
  {
    high as int * 256 + low as int
  }

  /** `((buf[3] & 0x0F) << 8) | buf[2]`, with byte 3 as `b3` and byte 2 as
      `b2`: the low nibble of byte 3 above byte 2. */
  function XBits(b3: Byte, b2: Byte): (x: bv16)
    ensures x < 0x1000
    ensures (x & 0xFF) as Byte == b2
    ensures x >> 8 == (b3 & 0x0F) as bv16
  {
    (((b3 & 0x0F) as bv16) << 8) | (b2 as bv16)
  }

  /** `((buf[3] & 0xF0) << 4) | buf[4]`, with byte 3 as `b3` and byte 4 as
      `b4`: the high nibble of byte 3 above byte 4. */
  function YBits(b3: Byte, b4: Byte): (y: bv16)
    ensures y < 0x1000
    ensures (y & 0xFF) as Byte == b4
    ensures y >> 8 == (b3 >> 4) as bv16
  {
    (((b3 & 0xF0) as bv16) << 4) | (b4 as bv16)
  }

  lemma XBitsAsNumber(b3: Byte, b2: Byte)
    ensures XBits(b3, b2) as int == Coord(b3 & 0x0F, b2)
    ensures XBits(b3, b2) as int < CoordLimit
  {
    var h := (b3 & 0x0F) as bv16;
    assert XBits(b3, b2) == h * 256 + b2 as bv16;
    assert h as int == (b3 & 0x0F) as int < 16;
    assert (h * 256 + b2 as bv16) as int == h as int * 256 + (b2 as bv16) as int;
  }

  lemma YBitsAsNumber(b3: Byte, b4: Byte)
    ensures YBits(b3, b4) as int == Coord(b3 >> 4, b4)
    ensures YBits(b3, b4) as int < CoordLimit
  {
    var h := (b3 >> 4) as bv16;
    assert YBits(b3, b4) == h * 256 + b4 as bv16;
    assert h as int == (b3 >> 4) as int < 16;
    assert (h * 256 + b4 as bv16) as int == h as int * 256 + (b4 as bv16) as int;
  }

  /** Byte 3 is split between the two coordinates and is put back together
      from their upper nibbles. */
  lemma ByteThreeRecovered(b2: Byte, b3: Byte, b4: Byte)
    ensures b3 == (((YBits(b3, b4) >> 8) << 4) | (XBits(b3, b2) >> 8)) as Byte
  {
  }

  /** Splitting a 12-bit pair of coordinates into frame bytes and joining
      them again gives the pair back. */
  lemma JoinSplit(x: bv16, y: bv16)
    requires x < 0x1000 && y < 0x1000
    ensures XBits((((y >> 8) << 4) | (x >> 8)) as Byte, (x & 0xFF) as Byte) == x
    ensures YBits((((y >> 8) << 4) | (x >> 8)) as Byte, (y & 0xFF) as Byte) == y
  {
  }

  /** `xpos` as the poll task computes it. */
  function XPos(buf: RawFrame): bv16
  {
    XBits(buf[HighNibbles], buf[LowX])
  }

  /** `ypos` as the poll task computes it. */
  function YPos(buf: RawFrame): bv16
  {
    YBits(buf[HighNibbles], buf[LowY])
  }

  /** Decodes a frame that was read in full. Decoding cannot fail: the
      protocol has no checksum, so any fourteen bytes give some sample. */
  function Decode(buf: RawFrame): (s: Sample)
    ensures s.WellFormed()
    ensures s.Contact() <==> buf[EventByte] != 0
  {
    Sample(XPos(buf), YPos(buf), buf[EventByte])
  }

  /** The frame a sensor would send for a sample: the inverse of `Decode`
      on the bytes the decoder reads, with every other byte zero. */
  function Encode(s: Sample): (buf: RawFrame)
    requires s.WellFormed()
    ensures buf[LowX] == (s.xpos & 0xFF) as Byte
    ensures buf[LowY] == (s.ypos & 0xFF) as Byte
    ensures buf[EventByte] == s.event
  {
    var high := (((s.ypos >> 8) << 4) | (s.xpos >> 8)) as Byte;
    [0, 0, (s.xpos & 0xFF) as Byte, high, (s.ypos & 0xFF) as Byte, s.event,
     0, 0, 0, 0, 0, 0, 0, 0]
  }

  /** Two frames agree on bytes 2 to 5. */
  predicate SameDecodedBytes(a: RawFrame, b: RawFrame)
  {
    a[LowX] == b[LowX] && a[HighNibbles] == b[HighNibbles]
    && a[LowY] == b[LowY] && a[EventByte] == b[EventByte]
  }

  /** Bytes 2 to 5 are the only bytes the decoder reads, and it loses
      none of their bits: two frames decode alike exactly when they agree
      on those bytes. */
  lemma DecodeReadsOnlyBytesTwoToFive(a: RawFrame, b: RawFrame)
    ensures Decode(a) == Decode(b) <==> SameDecodedBytes(a, b)
  {
    if Decode(a) == Decode(b) {
      ByteThreeRecovered(a[LowX], a[HighNibbles], a[LowY]);
      ByteThreeRecovered(b[LowX], b[HighNibbles], b[LowY]);
    }
  }

  /** The two coordinates together determine bytes 2, 3 and 4. */
  lemma CoordinatesDetermineBytes(a: RawFrame, b: RawFrame)
    requires XPos(a) == XPos(b) && YPos(a) == YPos(b)
    ensures a[LowX] == b[LowX] && a[HighNibbles] == b[HighNibbles] && a[LowY] == b[LowY]
  {
    ByteThreeRecovered(a[LowX], a[HighNibbles], a[LowY]);
    ByteThreeRecovered(b[LowX], b[HighNibbles], b[LowY]);
  }

  /** Encoding a well-formed sample and decoding the frame gives the sample
      back. */
  lemma DecodeEncode(s: Sample)
    requires s.WellFormed()
    ensures Decode(Encode(s)) == s
  {
    JoinSplit(s.xpos, s.ypos);
  }

  /** Decoding then encoding keeps every byte the decoder reads. */
  lemma EncodeDecode(buf: RawFrame)
    ensures SameDecodedBytes(Encode(Decode(buf)), buf)
  {
    ByteThreeRecovered(buf[LowX], buf[HighNibbles], buf[LowY]);
  }

  /** The worked example of the frame layout: bytes 2 to 5 equal to
      0x02, 0x34, 0x15, 0x01 decode to X = 0x402, Y = 0x315 and a touch. */
  lemma DecodeExample(buf: RawFrame)
    requires buf[LowX] == 0x02 && buf[HighNibbles] == 0x34
    requires buf[LowY] == 0x15 && buf[EventByte] == 0x01
    ensures Decode(buf) == Sample(0x402, 0x315, 0x01)
    ensures Decode(buf).Contact()
  {
  }
}
