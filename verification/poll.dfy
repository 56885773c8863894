/** The deferred poll task, `it7260_ts_poscheck`: read one frame, report the
    touch state to the input device, and unmask the interrupt line. The input
    subsystem is modelled as the list of reports the driver hands to it; the
    I2C read is the pair of what `i2c_master_recv` returned and the buffer it
    left behind. */
module Poll {
  import opened Frame

  /** Linux input event codes used by the driver. */
  const BTN_TOUCH: int := 0x14a
  const ABS_X: int := 0x00
  const ABS_Y: int := 0x01

  /** One call into the input subsystem: `input_report_key`,
      `input_report_abs` or `input_sync`. */
  datatype Event =
    | Key(code: int, value: int)
    | Abs(axis: int, value: int)
    | Sync

  /** What one run of the poll task does: the reports, in order, and how
      many times it calls `enable_irq` on the device's line. */
  datatype PollOutput = PollOutput(events: seq<Event>, irqEnables: nat)

  /** The reports for one decoded sample. A touch reports the button down,
      then the axes SWAPPED (ABS_X carries `ypos`, ABS_Y carries `xpos`),
      then a sync; no touch reports the button up and a sync. */
  function Report(s: Sample): (evs: seq<Event>)
    ensures |evs| > 0 && evs[|evs| - 1] == Sync
    ensures evs[0] == Key(BTN_TOUCH, if s.Contact() then 1 else 0)
    ensures !s.Contact() ==> forall e :: e in evs ==> !e.Abs?
  {
    if s.Contact() then
      [Key(BTN_TOUCH, 1), Abs(ABS_X, s.ypos as int), Abs(ABS_Y, s.xpos as int), Sync]
    else
      [Key(BTN_TOUCH, 0), Sync]
  }

  /** One run of the poll task. `received` is the value `i2c_master_recv`
      returned (the byte count, or a negative error code) and `buf` the
      receive buffer afterwards. Anything but a full 14-byte read skips the
      reports (a negative code, compared with the unsigned buffer size, is
      never equal to it); every path ends in exactly one `enable_irq`. */
  function PosCheck(received: int, buf: RawFrame): (out: PollOutput)
    ensures out.irqEnables == 1
    ensures received != FrameSize ==> out.events == []
    ensures received == FrameSize && buf[EventByte] != 0 ==>
      out.events == [Key(BTN_TOUCH, 1),
                     Abs(ABS_X, Coord(buf[HighNibbles] >> 4, buf[LowY])),
                     Abs(ABS_Y, Coord(buf[HighNibbles] & 0x0F, buf[LowX])),
                     Sync]
    ensures received == FrameSize && buf[EventByte] == 0 ==>
      out.events == [Key(BTN_TOUCH, 0), Sync]
  {
    XBitsAsNumber(buf[HighNibbles], buf[LowX]);
    YBitsAsNumber(buf[HighNibbles], buf[LowY]);
    if received != FrameSize then
      PollOutput([], 1)
    else
      PollOutput(Report(Decode(buf)), 1)
  }

  /** Every position the poll task reports lies in [0, 4096): twelve bits,
      whatever the frame holds. No smaller bound holds, because the driver
      does not clamp to the axis ranges it declares. */
  lemma ReportedPositionsFitTwelveBits(received: int, buf: RawFrame)
    ensures forall e :: e in PosCheck(received, buf).events && e.Abs? ==>
      0 <= e.value < CoordLimit
  {
    var evs := PosCheck(received, buf).events;
    if received == FrameSize && buf[EventByte] != 0 {
      var b3 := buf[HighNibbles];
      assert (b3 >> 4) as int < 16 && (b3 & 0x0F) as int < 16;
      assert forall e :: e in evs && e.Abs? ==> e == evs[1] || e == evs[2];
    }
  }

  /** The largest reports really are reached: a frame with bytes 2 to 5 all
      0xFF reports 4095 on both axes, beyond both declared axis ranges. */
  lemma ReportedPositionsReachTwelveBits(buf: RawFrame)
    requires buf[LowX] == 0xFF && buf[HighNibbles] == 0xFF
    requires buf[LowY] == 0xFF && buf[EventByte] == 0xFF
    ensures Abs(ABS_X, CoordLimit - 1) in PosCheck(FrameSize, buf).events
    ensures Abs(ABS_Y, CoordLimit - 1) in PosCheck(FrameSize, buf).events
  {
  }

  /** Only bytes 2, 3, 4 and 5 of the frame reach the reports: two buffers
      that agree on those give the same output for the same read result. */
  lemma PosCheckReadsOnlyBytesTwoToFive(received: int, a: RawFrame, b: RawFrame)
    requires SameDecodedBytes(a, b)
    ensures PosCheck(received, a) == PosCheck(received, b)
  {
    DecodeReadsOnlyBytesTwoToFive(a, b);
  }

  /** Two 16-bit values with the same number are the same value. */
  lemma SameNumberSameBits(x: bv16, y: bv16)
    requires x as int == y as int
    ensures x == y
  {
    assert (x as int) as bv16 == x;
    assert (y as int) as bv16 == y;
  }

  /** A touch report carries both coordinates intact: two touch frames
      whose reports are equal agree on bytes 2, 3 and 4. The reports lose
      nothing the decoder read. */
  lemma TouchReportDeterminesFrame(a: RawFrame, b: RawFrame)
    requires a[EventByte] != 0 && b[EventByte] != 0
    requires PosCheck(FrameSize, a) == PosCheck(FrameSize, b)
    ensures a[LowX] == b[LowX] && a[HighNibbles] == b[HighNibbles] && a[LowY] == b[LowY]
  {
    var da, db := Decode(a), Decode(b);
    assert Report(da) == Report(db);
    assert Report(da)[1] == Report(db)[1] && Report(da)[2] == Report(db)[2];
    SameNumberSameBits(da.ypos, db.ypos);
    SameNumberSameBits(da.xpos, db.xpos);
    CoordinatesDetermineBytes(a, b);
  }
}
