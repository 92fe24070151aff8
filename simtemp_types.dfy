/** The data model the driver shares with user space (nxp_simtemp.h): the
    queue capacity, the sampling modes, the sample record and its packed
    16-byte layout, the statistics block, the flag bits and the ioctl
    command numbers. */
module SimTempTypes {
  import opened Machine

  /** SIMTEMP_MAX_SAMPLES: the number of slots in the sample ring. */
  const MAX_SAMPLES: nat := 32

  // ---------------------------------------------------------------- modes

  datatype Mode = Normal | Noisy | Ramp

  /** MODE_MAX: one past the largest mode number. */
  const MODE_MAX: u32 := 3

  /** The number `enum simtemp_mode` gives each mode. */
  function ModeValue(m: Mode): (v: u32)
    ensures v < MODE_MAX
    ensures m == Normal <==> v == 0
    ensures m == Noisy <==> v == 1
  {
    match m
    case Normal => 0
    case Noisy => 1
    case Ramp => 2
  }

  /** The mode a raw u32 names, if any: exactly the numbers below MODE_MAX. */
  function ModeOfValue(v: u32): (m: Option<Mode>)
    ensures m.Some? <==> v < MODE_MAX
    ensures m.Some? ==> ModeValue(m.value) == v
  {
    if v == 0 then Some(Normal)
    else if v == 1 then Some(Noisy)
    else if v == 2 then Some(Ramp)
    else None
  }

  // ---------------------------------------------------------------- flags

  const FLAG_NEW_SAMPLE: bv32 := 1 << 0
  const FLAG_THRESHOLD_CROSSED: bv32 := 1 << 1

  /** The two flags are distinct single bits. */
  predicate IsSingleBit(b: bv32) {
    b != 0 && b & (b - 1) == 0
  }

  function DefinedFlags(): (all: bv32)
    ensures IsSingleBit(FLAG_NEW_SAMPLE) && IsSingleBit(FLAG_THRESHOLD_CROSSED)
    ensures FLAG_NEW_SAMPLE & FLAG_THRESHOLD_CROSSED == 0
    ensures all == 3
  {
    FLAG_NEW_SAMPLE | FLAG_THRESHOLD_CROSSED
  }

  // --------------------------------------------------------------- sample

  /** struct simtemp_sample: a timestamp in nanoseconds, a temperature in
      milli-degrees Celsius and a flag word. */
  datatype Sample = Sample(timestampNs: u64, tempMC: s32, flags: bv32)

  /** sizeof(struct simtemp_sample): 8 + 4 + 4, packed, no padding. */
  const SAMPLE_SIZE: nat := 16

  /** The packed in-memory image of a sample on a little-endian host:
      timestamp_ns at bytes 0-7, temp_mC at 8-11, flags at 12-15. This is
      what a read of the device copies to user space. */
  function EncodeSample(s: Sample): (bytes: seq<bv8>)
    ensures |bytes| == SAMPLE_SIZE
    ensures LeU64(bytes[..8]) == s.timestampNs
    ensures ToS32(LeU32(bytes[8..12])) == s.tempMC
    ensures LeBits32(bytes[12..]) == s.flags
  {
    var t := U64Bytes(s.timestampNs);
    var m := U32Bytes(S32Bits(s.tempMC));
    var f := Bits32Bytes(s.flags);
    LeBits32OfBits32Bytes(s.flags);
    assert (t + m + f)[..8] == t;
    assert (t + m + f)[8..12] == m;
    assert (t + m + f)[12..] == f;
    t + m + f
  }

  // ---------------------------------------------------------------- stats

  /** struct simtemp_stats: four u32 counters, 16 bytes. */
  datatype Stats = Stats(samplesProduced: u32, alertsTriggered: u32, readErrors: u32, lastError: u32)

  const STATS_SIZE: nat := 16

  // ---------------------------------------------------------------- ioctl

  /** The generic Linux ioctl number layout (asm-generic/ioctl.h): bits 0-7
      the command number, 8-15 the type ("magic"), 16-29 the argument size,
      30-31 the direction. */
  const IOC_WRITE: nat := 1
  const IOC_READ: nat := 2

  function Ioc(dir: nat, kind: nat, nr: nat, size: nat): (code: u32)
    requires dir < 4 && kind < 256 && nr < 256 && size < 0x4000
    ensures code % 0x100 == nr
    ensures code / 0x100 % 0x100 == kind
    ensures code / 0x1_0000 % 0x4000 == size
    ensures code / 0x4000_0000 == dir
  {
    var low := kind * 0x100 + nr;
    var high := dir * 0x4000 + size;
    var code := high * 0x1_0000 + low;
    assert code / 0x1_0000 == high && code % 0x1_0000 == low;
    assert code % 0x100 == nr by {
      assert code == (high * 0x100 + kind) * 0x100 + nr;
    }
    assert code / 0x100 == high * 0x100 + kind;
    assert high % 0x4000 == size && high / 0x4000 == dir;
    code
  }

  /** SIMTEMP_IOCTL_MAGIC. */
  const SIMTEMP_IOCTL_MAGIC: nat := 'S' as nat

  datatype Command = SetSampling | SetThreshold | SetMode | GetStats

  /** The command number within the magic. */
  function CommandNumber(c: Command): (nr: nat)
    ensures 1 <= nr <= 4
  {
    match c
    case SetSampling => 1
    case SetThreshold => 2
    case SetMode => 3
    case GetStats => 4
  }

  /** _IOW(SIMTEMP_IOCTL_MAGIC, n, __u32 / __s32) for the three setters,
      _IOR(SIMTEMP_IOCTL_MAGIC, 4, struct simtemp_stats) for GET_STATS. */
  function CommandCode(c: Command): (code: u32)
    ensures code / 0x100 % 0x100 == SIMTEMP_IOCTL_MAGIC
    ensures code % 0x100 == CommandNumber(c)
    ensures code / 0x1_0000 % 0x4000 == if c == GetStats then STATS_SIZE else 4
    ensures code / 0x4000_0000 == if c == GetStats then IOC_READ else IOC_WRITE
  {
    match c
    case SetSampling => Ioc(IOC_WRITE, SIMTEMP_IOCTL_MAGIC, 1, 4)
    case SetThreshold => Ioc(IOC_WRITE, SIMTEMP_IOCTL_MAGIC, 2, 4)
    case SetMode => Ioc(IOC_WRITE, SIMTEMP_IOCTL_MAGIC, 3, 4)
    case GetStats => Ioc(IOC_READ, SIMTEMP_IOCTL_MAGIC, 4, STATS_SIZE)
  }

  /** The command an ioctl number selects, as the driver's `switch (cmd)`
      does; the four codes are distinct, so each selects its own command. */
  function CommandOf(code: u32): (c: Option<Command>)
    ensures c.Some? ==> CommandCode(c.value) == code
    ensures forall k: Command :: CommandCode(k) == code ==> c == Some(k)
  {
    if code == CommandCode(SetSampling) then Some(SetSampling)
    else if code == CommandCode(SetThreshold) then Some(SetThreshold)
    else if code == CommandCode(SetMode) then Some(SetMode)
    else if code == CommandCode(GetStats) then Some(GetStats)
    else None
  }
}
