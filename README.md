# nxp_simtemp in Dafny

A model of the NXP virtual temperature sensor driver and its packed sample
format. The driver runs a periodic tick that produces temperature samples
from one of three signal models (normal, noisy, ramp). It flags a sample
when the temperature stays above a threshold, and queues the samples in a
32-slot ring that drops the newest sample when full. Readers pop samples
through `read`. `poll` reports readiness. The ioctl and sysfs setters change
the sampling period, the threshold and the mode. An offline decoder lists a
file of packed 16-byte samples.

Four modules:

- `Machine` (machine.dfy): the C integer widths the sources use. It covers
  u32 wrap-around, the s32/u32 reinterpretation of 32 bits, and the
  little-endian byte images of u32, u64 and 32-bit flag words.
- `SimTempTypes` (simtemp_types.dfy): what nxp_simtemp.h shares with user
  space. That is the capacity, the modes and their numbers, the flag bits,
  the sample record and its packed layout, the statistics block and the
  ioctl command numbers.
- `SimTemp` (simtemp.dfy): the engine of nxp_simtemp.c.
  - The pure parts are functions: the signal models, the ramp step, the
    alert test, the queue policy `Offer`, and the read return codes.
  - The device is the class `Device`. Its `array<Sample>` ring has read
    index, write index and count. Each entry point is one atomic method,
    because the driver runs every entry point under one mutex.
  - A ghost sequence `Contents` holds the queued samples, oldest first.
    The class invariant `Valid` ties it to the ring slots (`RingHolds`).
    The invariant also keeps the ramp on its 20000..60000 mC wave whenever
    the mode is ramp.
  - `Tick` appends to `Contents` according to `Offer`, and `Read` removes
    its first element. Together these give first-in first-out order.
- `SampleDecoder` (decode_samples.dfy): the decoder's record loop as a
  method `ListSamples`, proved equal to the pure `DecodeAll`. It also has
  the flag labels and the exit codes of `main`. Decoding and encoding are
  proved to be inverse in both directions.

These inputs are method parameters:
- the random number (`get_random_u32`);
- the timestamp (`ktime_get_ns`);
- whether copies to and from user memory succeed;
- the values kstrtoul/kstrtol parsed from sysfs text;
- the device-tree properties, as optional values.

Behaviour of the driver worth knowing:

- The third statistics counter is `read_errors`. A dropped sample
  increments it. `last_error` is never written.
- `EPOLLPRI` is reported on every poll, whether or not an alert was raised.
- The alert test is "stored temperature above the threshold and new one at
  or above it". It is not an edge test. A temperature that stays above the
  threshold alerts on every tick (`SimTemp.SustainedAboveAlertsEveryTick`).
- The `threshold_crossed` field is cleared by both threshold setters and
  never read. It is a ghost field here.

## Model

| member | source | states |
|---|---|---|
| Machine.U32 | nxp_simtemp.c:201 | u32 assignment keeps the residue mod 2^32: identity on [0, 2^32), +2^32 just below zero, -2^32 just above the range |
| Machine.Inc32 | nxp_simtemp.c:273-276 | a `++` on a u32 counter adds one, and wraps to 0 after 0xFFFFFFFF |
| Machine.ToS32 | nxp_simtemp.c:480 | reading 32 bits as __s32 keeps the bit pattern, and is negative exactly when the top bit is set |
| Machine.S32Bits | nxp_simtemp.h:28 | the two's-complement pattern of an s32 has the top bit set iff the value is negative, and is congruent to it mod 2^32 |
| Machine.S32BitsInverse | nxp_simtemp.h:28 | s32 -> bits -> s32 is the identity |
| Machine.LeValueOfLeBytes | decode_samples.c:5-9 | decoding the little-endian image of a value gives the value back |
| Machine.LeBytesOfLeValue | decode_samples.c:5-9 | encoding the value of a byte string gives the byte string back |
| Machine.LeU32 | decode_samples.c:7-8 | the u32 held by 4 bytes, whose own image is those bytes |
| Machine.LeU64 | decode_samples.c:6 | the u64 held by 8 bytes, whose own image is those bytes |
| Machine.U32Bytes | nxp_simtemp.h:28-29 | the 4-byte image of a u32 decodes to it |
| Machine.U64Bytes | nxp_simtemp.h:27 | the 8-byte image of a u64 decodes to it |
| Machine.LeBits32 | decode_samples.c:8 | the flag word read from 4 bytes re-encodes to those bytes |
| Machine.LeBits32OfBits32Bytes | nxp_simtemp.h:29 | a flag word encoded and read back is unchanged |
| SimTempTypes.ModeValue | nxp_simtemp.h:18-23 | NORMAL=0, NOISY=1, RAMP=2, each below MODE_MAX |
| SimTempTypes.ModeOfValue | nxp_simtemp.h:18-23 | a u32 names a mode iff it is below MODE_MAX = 3, and then names the mode with that number |
| SimTempTypes.DefinedFlags | nxp_simtemp.h:41-42 | FLAG_NEW_SAMPLE and FLAG_THRESHOLD_CROSSED are distinct single bits whose union is 3 |
| SimTempTypes.EncodeSample | nxp_simtemp.h:25-30 | the packed sample is 16 bytes: u64 timestamp in 0-7, s32 temperature in 8-11, flags in 12-15, each field recoverable |
| SimTempTypes.Ioc | nxp_simtemp.h:12-15 | the ioctl number's nr, type, size and direction fields each decode back from the code |
| SimTempTypes.CommandCode | nxp_simtemp.h:11-15 | each command carries magic 'S' and its own number; the three setters are write commands with a 4-byte argument; GET_STATS is a read command of the 16-byte stats block |
| SimTempTypes.CommandOf | nxp_simtemp.c:369-428 | the `switch (cmd)` selects a command only for its own code, and selects every command whose code matches |
| SimTemp.NormalTemp | nxp_simtemp.c:198-202 | the u32 wrap-arounds cancel: the result is 40000 + r mod 2000 - 1000, in [39000, 40999] |
| SimTemp.NoisyTemp | nxp_simtemp.c:204-208 | the result is 40000 + r mod 10000 - 5000, in [35000, 44999] |
| SimTemp.RampStep | nxp_simtemp.c:210-228 | moves 1000 in the current direction with clamps at 60000 and 20000; the direction flips exactly at a clamp; the range and the wave's shape are preserved |
| SimTemp.RampAfter | nxp_simtemp.c:210-228 | every state n ramp ticks on from a wave state is again a wave state |
| SimTemp.RampPhase | nxp_simtemp.c:210-228 | a wave state has a position below 80; positions 0-39 are rising |
| SimTemp.RampStepAdvancesPhase | nxp_simtemp.c:210-228 | each ramp tick advances the position by one, modulo 80 |
| SimTemp.RampPhaseInjective | nxp_simtemp.c:210-228 | two wave states at the same position are equal |
| SimTemp.RampAfterPhase | nxp_simtemp.c:210-228 | n ramp ticks advance the position by n, modulo 80 |
| SimTemp.RampPeriodic | nxp_simtemp.c:210-228 | the ramp is periodic: every multiple of 80 ticks returns it to the same state |
| SimTemp.RampFromStart | nxp_simtemp.c:149-152 | from the 25000 rising start, 35 ticks reach 60000 falling and 75 ticks reach 20000 rising |
| SimTemp.NextTemp | nxp_simtemp.c:230-242 | normal mode gives 40000 + r % 2000 - 1000 and noisy mode 40000 + r % 10000 - 5000, each within its range; ramp mode gives the ramp step's new base |
| SimTemp.Alert | nxp_simtemp.c:259-260 | never fires when the stored temperature is at or below the threshold or the new one is below it; fires whenever both are above/at it |
| SimTemp.SampleFlags | nxp_simtemp.c:256-263 | NEW_SAMPLE is always set, THRESHOLD_CROSSED exactly on an alert, no other bit |
| SimTemp.SustainedAboveAlertsEveryTick | nxp_simtemp.c:259-267 | once above the threshold, every tick that stays above it alerts again |
| SimTemp.Offer | nxp_simtemp.c:270-277 | with a free slot the sample is appended; on a full queue the queue is unchanged; never more than 32 |
| SimTemp.OfferAllKeepsOldest | nxp_simtemp.c:270-277 | without reads the queue is the first 32 samples offered, in order, and kept plus dropped equals offered |
| SimTemp.StatsAfterCounts | nxp_simtemp.c:264-276 | below wrap-around, a run of ticks adds the samples kept to samples_produced, the samples dropped to read_errors and the alerts to alerts_triggered, and leaves last_error alone |
| SimTemp.FortyTicksKeepFirstThirtyTwo | nxp_simtemp.c:264-277 | 40 ticks into an empty queue with fresh statistics keep the first 32 samples; samples_produced ends at 32, read_errors at 8, last_error at 0 |
| SimTemp.ReadReturn | nxp_simtemp.c:311-341 | a read returns a non-negative count only when a sample was copied, and then 16; -EINVAL, -EAGAIN, -EFAULT and -ERESTARTSYS exactly for the short buffer, the empty non-blocking read, the faulting copy and the interrupted wait |
| SimTemp.UserBytes | nxp_simtemp.c:335-339 | a successful read places the sample's 16-byte image in the user buffer: its timestamp, temperature and flags each read back from their bytes; otherwise nothing |
| SimTemp.UpToNul | nxp_simtemp.c:145-149 | the text a C string function sees in the NUL-terminated sysfs buffer: a prefix of the bytes written, without NUL, ending at the first NUL or at the end |
| SimTemp.SysfsStreq | nxp_simtemp.c:145-149 | the written text, read up to its first NUL, matches a name exactly when it is the name, optionally followed by one newline |
| SimTemp.UpToNulStops | nxp_simtemp.c:145-149 | text without a NUL is seen whole, and bytes after the first NUL are never seen |
| SimTemp.EmbeddedNulEndsText | nxp_simtemp.c:145-156 | appending a NUL and any bytes to a text selects the same mode as the text alone; "normal\0x" selects normal |
| SimTemp.ModeNamesExclusive | nxp_simtemp.c:145-150 | no written text matches two mode names |
| SimTemp.ParseModeName | nxp_simtemp.c:145-156 | the text, up to its first NUL, selects a mode exactly when it is that mode's name, optionally followed by a newline |
| SimTemp.ModeName | nxp_simtemp.c:128-131 | a mode's name, with or without the newline mode_show appends, parses back to that mode |
| SimTemp.TickStats | nxp_simtemp.c:264-276 | an alert counts in alerts_triggered even when the sample is dropped; a stored sample in samples_produced; a drop in read_errors; last_error is untouched |
| SimTemp.RingPush | nxp_simtemp.c:270-273 | writing the slot after the last queued one extends the queue by that sample |
| SimTemp.RingPop | nxp_simtemp.c:329-331 | the slot at the read index holds the oldest sample; advancing the index removes exactly it |
| SimTemp.Device.constructor | nxp_simtemp.c:454-484 | zero-filled state, then the defaults (50 ms, 41000 mC, normal, 40000 mC), then the device-tree values where present, unchecked |
| SimTemp.Device.Poll | nxp_simtemp.c:344-360 | IN and RDNORM iff a sample is queued, PRI always, no other bit |
| SimTemp.Device.ModeShow | nxp_simtemp.c:122-136 | the shown text parses back to the current mode |
| SimTemp.Device.SimulateRamp | nxp_simtemp.c:210-228 | the ramp fields become the ramp step of the old ones, and the invariant is kept |
| SimTemp.Device.SimulateTemperature | nxp_simtemp.c:230-242 | the temperature is the mode's signal model; only ramp mode changes state |
| SimTemp.Device.Enqueue | nxp_simtemp.c:269-277 | not full: slot write_idx receives the sample, others unchanged, write_idx advances mod 32, count and samples_produced increase; full: ring, indices and count unchanged, read_errors increases |
| SimTemp.Device.CheckThreshold | nxp_simtemp.c:258-265 | the alert decision from the stored temperature, counted in alerts_triggered |
| SimTemp.Device.Tick | nxp_simtemp.c:245-289 | the full new state: sample fields and flags, alert, stored temperature, ramp state, queue by `Offer`, ring slots and indices, statistics by `TickStats`; the invariant is kept |
| SimTemp.Device.Read | nxp_simtemp.c:304-342 | short buffer: -EINVAL, nothing changes; empty: WouldBlock or Interrupted, nothing changes; otherwise the oldest sample is removed, even when the copy faults, and is returned when it does not |
| SimTemp.Device.SamplingMsStore | nxp_simtemp.c:70-93 | a parse error is returned as is; outside [10, 10000] -EINVAL and no change; otherwise the value is stored and the write length returned |
| SimTemp.Device.ThresholdStore | nxp_simtemp.c:102-120 | any parsed long is taken, truncated to its low 32 bits; the crossed latch is cleared |
| SimTemp.Device.ModeStore | nxp_simtemp.c:138-160 | a mode name (read up to the first NUL, with an optional newline) selects that mode; ramp restarts at 25000 rising, even from ramp; other text: -EINVAL and no change |
| SimTemp.Device.IoctlSetSampling | nxp_simtemp.c:370-383 | copy fault -EFAULT; outside [10, 10000] -EINVAL; both leave the period; otherwise it is stored |
| SimTemp.Device.IoctlSetThreshold | nxp_simtemp.c:385-395 | copy fault -EFAULT and no change; otherwise the word as __s32 is stored and the latch cleared |
| SimTemp.Device.IoctlSetMode | nxp_simtemp.c:397-413 | copy fault -EFAULT, a number at or above MODE_MAX -EINVAL, both without change; otherwise the mode, with the ramp reset for ramp |
| SimTemp.Device.Ioctl | nxp_simtemp.c:362-432 | unknown command -ENOTTY and no change; each command changes only its own fields; GET_STATS copies the current statistics or returns -EFAULT |
| SampleDecoder.DecodeRecord | decode_samples.c:5-9 | any 16 bytes are the packed image of the sample they decode to |
| SampleDecoder.DecodeEncodeSample | nxp_simtemp.h:26-30 | a driver sample's 16 bytes decode to the same sample |
| SampleDecoder.LeU32Injective | decode_samples.c:7-8 | distinct 4-byte strings hold distinct u32 values |
| SampleDecoder.LeU64Injective | decode_samples.c:6 | distinct 8-byte strings hold distinct u64 values |
| SampleDecoder.DecodeAll | decode_samples.c:31 | an n-byte file yields n / 16 records |
| SampleDecoder.DecodeAllAt | decode_samples.c:31 | the i-th decoded record comes from bytes 16i to 16i+15 |
| SampleDecoder.DecodeEncodeAll | decode_samples.c:31 | samples written back to back, with any partial trailing record, decode to those samples and nothing else |
| SampleDecoder.FlagLabels | decode_samples.c:40-41 | NEW_SAMPLE iff bit 0x1, THRESHOLD_CROSSED iff bit 0x2, in that order, and no other label |
| SampleDecoder.ListSamples | decode_samples.c:23-43 | the loop lists every whole record in file order, numbered from 1 with its labels, and `count` ends at the number listed |
| SampleDecoder.Run | decode_samples.c:11-46 | argc other than 2 or a file that does not open: exit 1, nothing listed; otherwise exit 0 after the full listing |

## Left out

- Kernel registration (probe's cdev, class, device and sysfs creation and its error unwinding, remove, module init and exit): plumbing with no engine state. Only the defaults and device-tree values probe assigns are modelled.
- The device-tree reads are foreign calls. With no device-tree node, or a missing property, the value is `None`.
- Concurrency: the mutex, the wait queues and the wake-ups. Each entry point is one atomic method. `Tick`'s `alert` result says whether the priority queue is woken.
- SimTemp.UserBytes: a faulting copy_to_user is modelled as leaving nothing in the user buffer. A partial copy of a prefix of the sample before the fault is not modelled.
- SimTemp.Device.Read: a blocking read on an empty queue is modelled only by its interrupted exit (-ERESTARTSYS). The wake-up path is the same as a `Tick` followed by a new `Read`.
- Timers: timer setup, `mod_timer` and jiffies only schedule the tick. `Tick` is called explicitly, and the sampling setters do not model the rescheduling.
- Text parsing and formatting: kstrtoul, kstrtol and sprintf are kernel library code. The store handlers take the already-parsed value or its error code.
- sampling_ms_show, threshold_mC_show and stats_show: they only print a field in decimal (sprintf), which is not modelled. The fields themselves are the class state. mode_show is modelled as `Device.ModeShow`.
- The `default:` branches of `simulate_temperature` and `mode_show` cannot be reached: the mode is a datatype with three values, which is all the setters can store.
- SimTemp.RampStep: defined only where the step in the direction taken (`ramp_base += 1000` rising, `-= 1000` falling) does not overflow an __s32, which C leaves undefined. The class invariant keeps the base in [20000, 60000] in ramp mode anyway.
- The ioctl numbers use the generic Linux `_IOC` layout (asm-generic/ioctl.h). Architectures with a different layout are not modelled.
- SampleDecoder.Run: the decoder's `int count` is unbounded here. Overflow after 2^31 records is not modelled.
- The decoder's printing and the floating-point Celsius column (`temp_mC / 1000.0`) are stdio and floating point. A listing line keeps the record number, the decoded sample and its flag labels.
- The sample image is the little-endian host byte order, and the decoder runs on a little-endian host.
