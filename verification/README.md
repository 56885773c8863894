# IT7260 touchscreen driver — a Dafny model

This project models the Linux I2C driver for the IT7260 touch controller
(`it7260_ts.c`). It covers four parts of the driver:

- **Frame decoder** (`frame.dfy`, module `Frame`). The poll task reads a
  14-byte frame. Byte 2 and the low nibble of byte 3 give the 12-bit `xpos`.
  Byte 4 and the high nibble of byte 3 give `ypos`. Byte 5 is the touch
  event. `Encode` is the inverse of the decoder on the bytes it reads.
- **Poll task** (`poll.dfy`, module `Poll`). `it7260_ts_poscheck` takes the
  result of `i2c_master_recv` and the buffer. It returns the list of input
  reports (key, absolute axes, sync) and the number of `enable_irq` calls.
  On a touch, the axes are reported swapped: ABS_X carries `ypos` and ABS_Y
  carries `xpos`.
- **Interrupt bracket** (`irq.dfy`, module `IrqBracket`). The ISR masks the
  line with `disable_irq_nosync` and queues the delayed poll task. The poll
  task unmasks the line. The state is the line's disable depth plus a
  work-queued flag. Sequences of interrupts and polls are replayed as
  traces.
- **Probe and remove** (`lifecycle.dfy`, module `Lifecycle`). The four
  resources probe takes are kept in a ledger: private data, input device,
  input registration and IRQ handler. Each acquisition and release is also
  written to a log. Releasing something not held is ruled out by a
  precondition, so the proofs also show there is no double free. The probe's
  `err2` → `err1` → `err0` goto chain is modelled label by label.

The bus read, each allocation result and each registration result are
parameters (`received`/`buf`, `ProbeEnv`). The input subsystem is modelled
as the list of report calls the driver makes.

Three points of the code deserve a note:

- The probe declares the axis ranges ABS_X 0..600 and ABS_Y 0..1024
  (it7260_ts.c:117-118), but the decoder never clamps. Only the 12-bit bound
  holds, and the model proves that one. It also shows that 4095 is reached on
  both axes (`Poll.ReportedPositionsReachTwelveBits`).
- Remove does not cancel the pending poll (see Findings).
- Remove has no "already removed" check: it dereferences drvdata
  unconditionally (it7260_ts.c:166-168). `Lifecycle.Remove` therefore
  requires a bound client, which is what the kernel guarantees when it calls
  remove.

## Model

| member | source | states |
|---|---|---|
| Frame.XBits | it7260_ts.c:43 | `xpos` is below 0x1000; its low byte is byte 2 and its high bits are the low nibble of byte 3 |
| Frame.YBits | it7260_ts.c:44 | `ypos` is below 0x1000; its low byte is byte 4 and its high bits are the high nibble of byte 3 |
| Frame.XBitsAsNumber | it7260_ts.c:43 | read as a number, `xpos` is (byte3 mod 16)·256 + byte2, so it is below 4096 |
| Frame.YBitsAsNumber | it7260_ts.c:44 | read as a number, `ypos` is (byte3 div 16)·256 + byte4, so it is below 4096 |
| Frame.ByteThreeRecovered | it7260_ts.c:43-44 | byte 3 is rebuilt exactly from the upper nibbles of `ypos` and `xpos`, so the decode loses no bit of byte 3 |
| Frame.JoinSplit | it7260_ts.c:43-44 | splitting any pair of 12-bit coordinates into frame bytes and decoding them gives the pair back |
| Frame.Decode | it7260_ts.c:43-45 | every frame decodes to a sample with both coordinates below 4096; the contact flag is set exactly when byte 5 is non-zero |
| Frame.Encode | it7260_ts.c:43-45 | a frame built from a well-formed sample holds the sample's low coordinate bytes at offsets 2 and 4 and its event at offset 5 |
| Frame.DecodeReadsOnlyBytesTwoToFive | it7260_ts.c:43-45 | two frames decode to the same sample if and only if they agree on bytes 2, 3, 4 and 5 |
| Frame.CoordinatesDetermineBytes | it7260_ts.c:43-44 | frames with equal `xpos` and `ypos` agree on bytes 2, 3 and 4 |
| Frame.DecodeEncode | it7260_ts.c:43-45 | decoding the encoding of a well-formed sample gives the sample back |
| Frame.EncodeDecode | it7260_ts.c:43-45 | encoding a decoded frame reproduces bytes 2 to 5 of the frame |
| Frame.DecodeExample | it7260_ts.c:43-47 | bytes 0x02, 0x34, 0x15, 0x01 at offsets 2 to 5 decode to X = 0x402, Y = 0x315, touch |
| Poll.Report | it7260_ts.c:47-55 | reports start with BTN_TOUCH (1 on touch, 0 otherwise) and end with a sync; no absolute report without a touch |
| Poll.PosCheck | it7260_ts.c:28-59 | exactly one `enable_irq` on every path; no reports unless the read returned 14; on a touch, exactly [BTN_TOUCH=1, ABS_X=ypos, ABS_Y=xpos, sync] with positions as numbers of the frame bytes; otherwise exactly [BTN_TOUCH=0, sync] |
| Poll.ReportedPositionsFitTwelveBits | it7260_ts.c:43-50 | every absolute value reported lies in [0, 4096) |
| Poll.ReportedPositionsReachTwelveBits | it7260_ts.c:43-50 | a frame with bytes 2 to 5 equal to 0xFF reports 4095 on both axes, above the axis maxima the probe declares |
| Poll.PosCheckReadsOnlyBytesTwoToFive | it7260_ts.c:43-55 | changing any byte other than 2 to 5 leaves the poll output unchanged |
| Poll.TouchReportDeterminesFrame | it7260_ts.c:47-51 | two touch frames with equal reports agree on bytes 2, 3 and 4: the swapped reports still carry every decoded bit |
| IrqBracket.DisableIrqNosync | it7260_ts.c:66 | the ISR's disable raises the line's disable depth and leaves the work queue alone |
| IrqBracket.EnableIrq | it7260_ts.c:58 | an enable undoes exactly one disable; at depth 0 it changes nothing |
| IrqBracket.EnableIrqTimes | it7260_ts.c:58 | n enables lower the depth by n, stopping at 0 |
| IrqBracket.ScheduleDelayedWork | it7260_ts.c:67 | scheduling leaves the poll queued and the depth unchanged |
| IrqBracket.Isr | it7260_ts.c:61-70 | the ISR returns IRQ_HANDLED, leaves the poll queued, and raises the depth by exactly one |
| IrqBracket.RunPoll | it7260_ts.c:28-59 | the poll task dequeues itself, makes the reports of `PosCheck`, and lowers a positive depth by exactly one |
| IrqBracket.IsrThenPollBalanced | it7260_ts.c:57-58 | the ISR followed by the poll returns the line to its starting depth with nothing queued, whatever the read returned |
| IrqBracket.RunPollIgnoresRead | it7260_ts.c:38-58 | the poll's effect on the line and the queue is the same for every read result, failed reads included |
| IrqBracket.StepKeepsBracket | it7260_ts.c:57-70 | an interrupt on an unmasked line, or a queued poll, keeps "masked exactly while a poll is queued" |
| IrqBracket.BracketKept | it7260_ts.c:57-70 | after any feasible history the bracket holds, and depth + polls run = starting depth + interrupts taken |
| IrqBracket.BracketFromIdle | it7260_ts.c:57-70 | from a fresh line, at most one interrupt is ever waiting for its poll; when all have been polled the line is unmasked and idle |
| IrqBracket.DoubleFireUnbalances | it7260_ts.c:57-67 | a second interrupt before the poll cannot happen; if it did, one poll would leave the line masked |
| Lifecycle.Take | it7260_ts.c:98-141 | acquiring a resource adds exactly it to the held set |
| Lifecycle.Drop | it7260_ts.c:153-172 | releasing a held resource removes exactly it from the held set |
| Lifecycle.SetDrvdata | it7260_ts.c:105 | setting or clearing drvdata changes nothing else |
| Lifecycle.InputUnregister | it7260_ts.c:154 | unregistering drops both the registration and the device |
| Lifecycle.InputFree | it7260_ts.c:155-157 | freeing a NULL input pointer does nothing; a non-NULL one must be an unregistered device and is released |
| Lifecycle.KFree | it7260_ts.c:158 | freeing the private data releases it |
| Lifecycle.Err0 | it7260_ts.c:159-161 | label `err0` clears drvdata and returns the error, holding what it was given |
| Lifecycle.Err1 | it7260_ts.c:156-161 | label `err1` releases the private data and, if the pointer is not NULL, the input device |
| Lifecycle.Err2 | it7260_ts.c:153-161 | label `err2` releases the registration, the device and the private data |
| Lifecycle.Probe | it7260_ts.c:89-162 | returns 0 exactly when every step succeeds, and then holds all four resources with drvdata set; otherwise holds nothing, drvdata is NULL, and it returns -ENOMEM or the failing call's code |
| Lifecycle.ProbeLog | it7260_ts.c:98-141 | the acquisition log lists the acquired resources in order |
| Lifecycle.ReleaseLog | it7260_ts.c:153-172 | the release log lists the released resources in order |
| Lifecycle.Reverse | it7260_ts.c:153-161 | the reversal of a sequence holds its elements back to front |
| Lifecycle.AcquiredBeforeFailure | it7260_ts.c:98-146 | the number of resources taken before the first failing step is at most four |
| Lifecycle.ProbeFailureUnwindsInReverse | it7260_ts.c:98-161 | a failed probe fails before its fourth acquisition, acquires the probe order up to the failing step, then releases exactly those resources, last taken first |
| Lifecycle.Remove | it7260_ts.c:164-175 | remove returns 0, holds nothing afterwards and clears drvdata; it leaves the interrupt and work state as it was |
| Lifecycle.RemoveReleasesInReverse | it7260_ts.c:168-172 | remove releases the IRQ, the registration, the device and the private data, in the reverse of the probe order |
| Lifecycle.ProbeThenRemove | it7260_ts.c:98-172 | remove after a successful probe leaves the client as unbound as before the probe, each resource released once in reverse acquisition order |
| Lifecycle.RemoveLeavesPollQueued | it7260_ts.c:164-175 | after a successful probe and one interrupt, remove leaves the poll queued with the private data freed |
| Lifecycle.CancelDelayedWorkSync | it7260_ts.c:164-175 | cancelling leaves no poll queued and the depth unchanged |
| Lifecycle.RemoveSync | it7260_ts.c:164-175 | corrected remove: the same releases in the same order, and no poll is left queued |

## Left out

- The I2C transfer itself (`i2c_master_recv`). The read is a parameter: the count it returned and the buffer afterwards.
- The input core's treatment of reports. For example, it drops a key report that does not change the key state. The model lists the calls the driver makes.
- Real concurrency and timing: the workqueue thread, the HZ/20 debounce delay, and how the interrupt controller masks a level-triggered line. The bracket is a sequence of state transitions. "A masked line does not fire" is the `CanStep` guard.
- Module init/exit, driver registration and the `"IT7260"` device-ID table (it7260_ts.c:177-211). These are kernel boilerplate.
- The input device's capability bits and axis parameters (it7260_ts.c:114-123), `client->irq = IRQ_EINT8`, the `IRQF_TRIGGER_LOW` flag and `device_init_wakeup`. These configure the kernel and create no resource the driver must release.
- The open/close hooks (it7260_ts.c:72-87). Their bodies are commented out, so they do nothing.
- The `dbg_pr`/`printk` logging.
- The user-space event reader `test.c`. It is pure I/O.
- The int-to-`unsigned short` truncation of the decoder. The model computes `xpos` and `ypos` directly in 16 bits. The values are below 4096, so the truncation never changes them.

## Findings

| source | as written | input that shows it | evidently intended | confidence | as-written member | corrected member |
|---|---|---|---|---|---|---|
| it7260_ts.c:164-175 | remove frees the IRQ, the input device and the private data without cancelling the delayed poll task | an interrupt arrives, the ISR queues the poll with its 50 ms delay, and the client is removed before the poll runs; the poll then reads the freed private data and enables a released line | cancel the delayed work (`cancel_delayed_work_sync`) after `free_irq` and before `kfree(priv)` | high; not executed | Lifecycle.RemoveLeavesPollQueued | Lifecycle.RemoveSync |
