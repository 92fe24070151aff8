/** The simulated temperature sensor engine (nxp_simtemp.c): three signal
    models, a triangle-wave ramp, the threshold alert, a 32-slot sample
    ring with a drop-newest overflow policy, the read and poll entry points
    and the control setters of the ioctl and sysfs interfaces.

    Every entry point of the driver runs under one mutex, so each is a
    single atomic method of `Device`. Randomness (get_random_u32), the clock
    (ktime_get_ns) and the outcome of copies to and from user memory are
    parameters of the methods. */
module SimTemp {
  import opened Machine
  import opened SimTempTypes

  // Error numbers the driver returns (negated): the first four as in the
  // Linux uapi errno headers, ERESTARTSYS as in the kernel-internal
  // include/linux/errno.h.
  const EAGAIN: int := 11
  const EFAULT: int := 14
  const EINVAL: int := 22
  const ENOTTY: int := 25
  const ERESTARTSYS: int := 512

  // Poll event bits (uapi eventpoll.h).
  const EPOLLIN: bv32 := 0x001
  const EPOLLPRI: bv32 := 0x002
  const EPOLLRDNORM: bv32 := 0x040

  // Defaults set at probe time.
  const DEFAULT_SAMPLING_MS: u32 := 50
  const DEFAULT_THRESHOLD_MC: s32 := 41000
  const DEFAULT_TEMP_MC: s32 := 40000

  // Range accepted by the sampling-period setters.
  const MIN_SAMPLING_MS: int := 10
  const MAX_SAMPLING_MS: int := 10000

  // The ramp's triangle wave.
  const RAMP_START_MC: int := 25000
  const RAMP_MIN_MC: int := 20000
  const RAMP_MAX_MC: int := 60000
  const RAMP_STEP_MC: int := 1000

  // ------------------------------------------------------- signal models

  /** simulate_temperature_normal: `40000 + (r % 2000 - 1000)` evaluated in
      u32 arithmetic (the subtraction wraps below zero, the addition wraps
      back) and returned as __s32. The wrap-arounds cancel. */
  function NormalTemp(random: u32): (t: s32)
    ensures t == 40000 + random % 2000 - 1000
    ensures 39000 <= t <= 40999
  {
    ToS32(U32(40000 + U32(random % 2000 - 1000)))
  }

  /** simulate_temperature_noisy: the same shape with a 10000 mC window. */
  function NoisyTemp(random: u32): (t: s32)
    ensures t == 40000 + random % 10000 - 5000
    ensures 35000 <= t <= 44999
  {
    ToS32(U32(40000 + U32(random % 10000 - 5000)))
  }

  datatype RampState = RampState(base: int, rising: bool)

  /** `ramp_base += 1000` (rising) or `-= 1000` (falling) on an __s32 is
      undefined behaviour when it overflows; the step is defined only where
      the addition in the direction taken does not. */
  predicate RampNoOverflow(base: int, rising: bool) {
    -TWO_31 <= base < TWO_31 &&
    if rising then base < TWO_31 - RAMP_STEP_MC else base >= -TWO_31 + RAMP_STEP_MC
  }

  /** A ramp state the triangle wave passes through: a whole number of
      steps inside [20000, 60000], rising below the top and falling above
      the bottom. */
  predicate RampWellFormed(base: int, rising: bool) {
    RAMP_MIN_MC <= base <= RAMP_MAX_MC && base % RAMP_STEP_MC == 0 &&
    (rising ==> base < RAMP_MAX_MC) && (!rising ==> base > RAMP_MIN_MC)
  }

  /** One step of simulate_temperature_ramp: move 1000 mC in the current
      direction, clamping at 60000 (then fall) and at 20000 (then rise). */
  function RampStep(base: int, rising: bool): (next: RampState)
    requires RampNoOverflow(base, rising)
    ensures rising ==> next.base == Min(base + RAMP_STEP_MC, RAMP_MAX_MC)
    ensures !rising ==> next.base == Max(base - RAMP_STEP_MC, RAMP_MIN_MC)
    ensures next.rising != rising <==> next.base == (if rising then RAMP_MAX_MC else RAMP_MIN_MC)
    ensures RAMP_MIN_MC <= base <= RAMP_MAX_MC ==> RAMP_MIN_MC <= next.base <= RAMP_MAX_MC
    ensures RampWellFormed(base, rising) ==> RampWellFormed(next.base, next.rising)
    ensures -TWO_31 <= next.base < TWO_31
  {
    if rising then
      if base + RAMP_STEP_MC >= RAMP_MAX_MC then RampState(RAMP_MAX_MC, false)
      else RampState(base + RAMP_STEP_MC, true)
    else
      if base - RAMP_STEP_MC <= RAMP_MIN_MC then RampState(RAMP_MIN_MC, true)
      else RampState(base - RAMP_STEP_MC, false)
  }

  function Min(a: int, b: int): int { if a <= b then a else b }
  function Max(a: int, b: int): int { if a >= b then a else b }

  /** The ramp state after n ticks in ramp mode. */
  function RampAfter(s: RampState, n: nat): (r: RampState)
    requires RampWellFormed(s.base, s.rising)
    ensures RampWellFormed(r.base, r.rising)
    decreases n
  {
    if n == 0 then s else RampAfter(RampStep(s.base, s.rising), n - 1)
  }

  /** Position of a well-formed ramp state within one period of the wave:
      0..39 on the way up from 20000, 40..79 on the way down from 60000. */
  function RampPhase(s: RampState): (p: nat)
    requires RampWellFormed(s.base, s.rising)
    ensures p < 80
    ensures s.rising <==> p < 40
  {
    if s.rising then (s.base - RAMP_MIN_MC) / RAMP_STEP_MC
    else 40 + (RAMP_MAX_MC - s.base) / RAMP_STEP_MC
  }

  lemma RampStepAdvancesPhase(s: RampState)
    requires RampWellFormed(s.base, s.rising)
    ensures RampPhase(RampStep(s.base, s.rising)) == (RampPhase(s) + 1) % 80
  {
  }

  lemma RampPhaseInjective(s: RampState, t: RampState)
    requires RampWellFormed(s.base, s.rising) && RampWellFormed(t.base, t.rising)
    requires RampPhase(s) == RampPhase(t)
    ensures s == t
  {
  }

  lemma {:induction false} RampAfterPhase(s: RampState, n: nat)
    requires RampWellFormed(s.base, s.rising)
    ensures RampPhase(RampAfter(s, n)) == (RampPhase(s) + n) % 80
    decreases n
  {
    if n > 0 {
      var s' := RampStep(s.base, s.rising);
      RampStepAdvancesPhase(s);
      RampAfterPhase(s', n - 1);
      assert RampAfter(s, n) == RampAfter(s', n - 1);
      var p := RampPhase(s);
      var q := RampPhase(s') + (n - 1);
      if p + 1 < 80 {
        assert q == p + n;
      } else {
        assert q + 80 == p + n;
        assert (q + 80) % 80 == q % 80;
      }
    }
  }

  /** Adding whole periods does not move a phase. */
  lemma {:induction false} WholePeriods(p: nat, k: nat)
    requires p < 80
    ensures (p + 80 * k) % 80 == p
  {
    if k > 0 {
      WholePeriods(p, k - 1);
      assert p + 80 * k == (p + 80 * (k - 1)) + 80;
    }
  }

  /** The ramp is a triangle wave of period 80 ticks: from any state it
      passes through, every whole number of periods brings it back to the
      same state. */
  lemma RampPeriodic(s: RampState, n: nat)
    requires RampWellFormed(s.base, s.rising)
    requires n % 80 == 0
    ensures RampAfter(s, n) == s
  {
    var p := RampPhase(s);
    RampAfterPhase(s, n);
    assert (p + n) % 80 == p by {
      WholePeriods(p, n / 80);
    }
    RampPhaseInjective(RampAfter(s, n), s);
  }

  /** Entering ramp mode starts from 25000 mC rising: 35 ticks later the
      wave is at its 60000 mC top, turning down, and 40 ticks after that at
      its 20000 mC bottom, turning up. */
  lemma RampFromStart()
    ensures RampAfter(RampState(RAMP_START_MC, true), 35) == RampState(RAMP_MAX_MC, false)
    ensures RampAfter(RampState(RAMP_START_MC, true), 75) == RampState(RAMP_MIN_MC, true)
  {
    var start := RampState(RAMP_START_MC, true);
    RampAfterPhase(start, 35);
    RampPhaseInjective(RampAfter(start, 35), RampState(RAMP_MAX_MC, false));
    RampAfterPhase(start, 75);
    RampPhaseInjective(RampAfter(start, 75), RampState(RAMP_MIN_MC, true));
  }

  /** simulate_temperature: the signal model the current mode selects. */
  function NextTemp(mode: Mode, base: int, rising: bool, random: u32): (t: s32)
    requires mode == Ramp ==> RampNoOverflow(base, rising)
    ensures mode == Normal ==> t == 40000 + random % 2000 - 1000 && 39000 <= t <= 40999
    ensures mode == Noisy ==> t == 40000 + random % 10000 - 5000 && 35000 <= t <= 44999
    ensures mode == Ramp ==> t == RampStep(base, rising).base
    ensures mode == Ramp && RampWellFormed(base, rising) ==> RAMP_MIN_MC <= t <= RAMP_MAX_MC
  {
    match mode
    case Normal => NormalTemp(random)
    case Noisy => NoisyTemp(random)
    case Ramp => RampStep(base, rising).base
  }

  // --------------------------------------------------------------- alert

  /** The alert test of sample_timer_callback: the stored temperature was
      already above the threshold and the new one is at or above it. It is
      not an edge test: a rise from at-or-below the threshold never fires,
      and a temperature that stays above it fires on every tick. */
  function Alert(previousMC: int, thresholdMC: int, newMC: int): (fire: bool)
    ensures previousMC <= thresholdMC ==> !fire
    ensures newMC < thresholdMC ==> !fire
    ensures previousMC > thresholdMC && newMC >= thresholdMC ==> fire
  {
    previousMC > thresholdMC && newMC >= thresholdMC
  }

  /** The flags of every generated sample: NEW_SAMPLE, plus
      THRESHOLD_CROSSED exactly when the alert fired, and no other bit. */
  function SampleFlags(alert: bool): (flags: bv32)
    ensures flags & FLAG_NEW_SAMPLE != 0
    ensures (flags & FLAG_THRESHOLD_CROSSED != 0) == alert
    ensures flags & !DefinedFlags() == 0
  {
    if alert then FLAG_NEW_SAMPLE | FLAG_THRESHOLD_CROSSED else FLAG_NEW_SAMPLE
  }

  /** The alerts raised by a run of ticks whose new temperatures are
      `temps`, starting from stored temperature `previousMC`; the stored
      temperature becomes each new one unconditionally. */
  function AlertTrace(previousMC: int, thresholdMC: int, temps: seq<int>): (alerts: seq<bool>)
    ensures |alerts| == |temps|
    decreases |temps|
  {
    if temps == [] then []
    else [Alert(previousMC, thresholdMC, temps[0])] + AlertTrace(temps[0], thresholdMC, temps[1..])
  }

  /** Once the stored temperature is above the threshold, every tick that
      stays above it raises an alert again. */
  lemma {:induction false} SustainedAboveAlertsEveryTick(previousMC: int, thresholdMC: int, temps: seq<int>)
    requires previousMC > thresholdMC
    requires forall i :: 0 <= i < |temps| ==> temps[i] > thresholdMC
    ensures forall i :: 0 <= i < |temps| ==> AlertTrace(previousMC, thresholdMC, temps)[i]
    decreases |temps|
  {
    if temps != [] {
      SustainedAboveAlertsEveryTick(temps[0], thresholdMC, temps[1..]);
      var rest := AlertTrace(temps[0], thresholdMC, temps[1..]);
      assert AlertTrace(previousMC, thresholdMC, temps) == [true] + rest;
    }
  }

  // --------------------------------------------------------------- queue

  /** The queue after a tick offers a sample: appended when a slot is free,
      dropped (the newest loses, the buffered ones are kept) when full. */
  function Offer(q: seq<Sample>, s: Sample): (r: seq<Sample>)
    requires |q| <= MAX_SAMPLES
    ensures |r| <= MAX_SAMPLES
    ensures |q| < MAX_SAMPLES ==> r == q + [s]
    ensures |q| == MAX_SAMPLES ==> r == q
  {
    if |q| < MAX_SAMPLES then q + [s] else q
  }

  /** The queue after offering each of `xs` in turn, with no reads between. */
  function OfferAll(q: seq<Sample>, xs: seq<Sample>): (r: seq<Sample>)
    requires |q| <= MAX_SAMPLES
    ensures |r| <= MAX_SAMPLES
    decreases |xs|
  {
    if xs == [] then q else OfferAll(Offer(q, xs[0]), xs[1..])
  }

  /** How many of `xs` the full queue drops, each one a read_errors tick. */
  function DroppedCount(q: seq<Sample>, xs: seq<Sample>): nat
    requires |q| <= MAX_SAMPLES
    decreases |xs|
  {
    if xs == [] then 0
    else (if |q| == MAX_SAMPLES then 1 else 0) + DroppedCount(Offer(q, xs[0]), xs[1..])
  }

  /** Without reads, the queue keeps the oldest 32 samples in arrival order
      and drops all later ones: what is kept plus what is dropped is
      everything offered. */
  lemma {:induction false} OfferAllKeepsOldest(q: seq<Sample>, xs: seq<Sample>)
    requires |q| <= MAX_SAMPLES
    ensures OfferAll(q, xs) == (q + xs)[..Min(MAX_SAMPLES, |q| + |xs|)]
    ensures |OfferAll(q, xs)| + DroppedCount(q, xs) == |q| + |xs|
    decreases |xs|
  {
    if xs != [] {
      var q' := Offer(q, xs[0]);
      OfferAllKeepsOldest(q', xs[1..]);
      if |q| < MAX_SAMPLES {
        assert q' + xs[1..] == q + xs;
      } else {
        assert (q' + xs[1..])[..MAX_SAMPLES] == q;
        assert (q + xs)[..MAX_SAMPLES] == q;
      }
    }
  }

  // ---------------------------------------------------------------- read

  /** How one call of simtemp_read ends. */
  datatype ReadOutcome =
    | Copied(sample: Sample)   // the oldest sample was removed and copied out
    | Fault                    // it was removed, but copy_to_user failed
    | InvalidLength            // the user buffer is shorter than one sample
    | WouldBlock               // O_NONBLOCK and the queue is empty
    | Interrupted              // blocked on an empty queue and a signal arrived

  /** The ssize_t simtemp_read returns for each outcome. */
  function ReadReturn(o: ReadOutcome): (ret: int)
    ensures ret >= 0 <==> o.Copied?
    ensures o.Copied? ==> ret == |EncodeSample(o.sample)|
    ensures o == InvalidLength <==> ret == -EINVAL
    ensures o == WouldBlock <==> ret == -EAGAIN
    ensures o == Fault <==> ret == -EFAULT
    ensures o == Interrupted <==> ret == -ERESTARTSYS
  {
    match o
    case Copied(_) => SAMPLE_SIZE
    case Fault => -EFAULT
    case InvalidLength => -EINVAL
    case WouldBlock => -EAGAIN
    case Interrupted => -ERESTARTSYS
  }

  /** The bytes a read places in the user buffer. */
  function UserBytes(o: ReadOutcome): (bytes: seq<bv8>)
    ensures o.Copied? ==> |bytes| == SAMPLE_SIZE && LeU64(bytes[..8]) == o.sample.timestampNs
    ensures o.Copied? ==> ToS32(LeU32(bytes[8..12])) == o.sample.tempMC && LeBits32(bytes[12..]) == o.sample.flags
    ensures !o.Copied? ==> bytes == []
  {
    if o.Copied? then EncodeSample(o.sample) else []
  }

  // ------------------------------------------------------------- control

  /** The result of kstrtoul / kstrtol on the text written to a sysfs file. */
  datatype Parsed<T> = Value(v: T) | ParseError(code: int)

  /** The written bytes as the C string the store handler sees: sysfs ends
      the buffer with a NUL after the last byte written, so a string
      function stops at the first NUL inside the text or at the end. */
  function UpToNul(buf: string): (s: string)
    ensures s <= buf && '\0' !in s
    ensures |s| < |buf| ==> buf[|s|] == '\0'
  {
    if buf == [] || buf[0] == '\0' then [] else [buf[0]] + UpToNul(buf[1..])
  }

  /** sysfs_streq against a literal without a newline or NUL: the written
      text, up to its first NUL, is the literal or the literal and one
      trailing newline. */
  predicate SysfsStreq(buf: string, literal: string): (eq: bool)
    ensures var c := UpToNul(buf);
      eq <==>
        |literal| <= |c| <= |literal| + 1 && c[..|literal|] == literal &&
        (|c| > |literal| ==> c[|literal|] == '\n')
  {
    var c := UpToNul(buf);
    c == literal || c == literal + "\n"
  }

  /** The C string of a text is the part before its first NUL. */
  lemma UpToNulStops(a: string, b: string)
    requires '\0' !in a
    ensures UpToNul(a) == a
    ensures UpToNul(a + ['\0'] + b) == a
  {
    var buf := a + ['\0'] + b;
    assert buf[|a|] == '\0';
    assert buf[..|a|] == a;
  }

  /** Bytes after an embedded NUL are never looked at: "normal\0x" selects
      normal mode. */
  lemma EmbeddedNulEndsText(a: string, b: string)
    requires '\0' !in a
    ensures ParseModeName(a + ['\0'] + b) == ParseModeName(a)
    ensures ParseModeName("normal\0x") == Some(Normal)
  {
    UpToNulStops(a, b);
    UpToNulStops("normal", "x");
    assert "normal\0x" == "normal" + ['\0'] + "x";
  }

  lemma ModeNamesExclusive(buf: string)
    ensures !(SysfsStreq(buf, "normal") && SysfsStreq(buf, "noisy"))
    ensures !(SysfsStreq(buf, "normal") && SysfsStreq(buf, "ramp"))
    ensures !(SysfsStreq(buf, "noisy") && SysfsStreq(buf, "ramp"))
  {
    var c := UpToNul(buf);
    if SysfsStreq(buf, "normal") || SysfsStreq(buf, "noisy") {
      assert c[2] == if SysfsStreq(buf, "normal") then 'r' else 'i';
    }
    if SysfsStreq(buf, "ramp") {
      assert c[0] == 'r';
    }
  }

  /** The if-chain of mode_store. */
  function ParseModeName(buf: string): (m: Option<Mode>)
    ensures m == Some(Normal) <==> SysfsStreq(buf, "normal")
    ensures m == Some(Noisy) <==> SysfsStreq(buf, "noisy")
    ensures m == Some(Ramp) <==> SysfsStreq(buf, "ramp")
  {
    ModeNamesExclusive(buf);
    if SysfsStreq(buf, "normal") then Some(Normal)
    else if SysfsStreq(buf, "noisy") then Some(Noisy)
    else if SysfsStreq(buf, "ramp") then Some(Ramp)
    else None
  }

  /** The name mode_show prints; the text it produces (name and newline)
      written back to the mode file selects the same mode. */
  function ModeName(m: Mode): (name: string)
    ensures ParseModeName(name) == Some(m)
    ensures ParseModeName(name + "\n") == Some(m)
  {
    match m
    case Normal => "normal"
    case Noisy => "noisy"
    case Ramp => "ramp"
  }

  /** The statistics after one tick: an alert counts in alerts_triggered;
      a stored sample counts in samples_produced and a dropped one in
      read_errors; last_error is never written. */
  function TickStats(st: Stats, alert: bool, full: bool): (r: Stats)
    ensures r.alertsTriggered == if alert then Inc32(st.alertsTriggered) else st.alertsTriggered
    ensures r.samplesProduced == if full then st.samplesProduced else Inc32(st.samplesProduced)
    ensures r.readErrors == if full then Inc32(st.readErrors) else st.readErrors
    ensures r.lastError == st.lastError
  {
    var st' := if alert then st.(alertsTriggered := Inc32(st.alertsTriggered)) else st;
    if full then st'.(readErrors := Inc32(st'.readErrors))
    else st'.(samplesProduced := Inc32(st'.samplesProduced))
  }

  /** How many of the ticks raised an alert. */
  function CountAlerts(alerts: seq<bool>): (n: nat)
    ensures n <= |alerts|
    decreases |alerts|
  {
    if alerts == [] then 0 else (if alerts[0] then 1 else 0) + CountAlerts(alerts[1..])
  }

  /** The statistics after a run of ticks with no reads between them: tick
      k offers sample xs[k] to the queue and raised alert alerts[k]. */
  function StatsAfter(st: Stats, q: seq<Sample>, xs: seq<Sample>, alerts: seq<bool>): Stats
    requires |q| <= MAX_SAMPLES && |alerts| == |xs|
    decreases |xs|
  {
    if xs == [] then st
    else StatsAfter(TickStats(st, alerts[0], |q| == MAX_SAMPLES), Offer(q, xs[0]), xs[1..], alerts[1..])
  }

  /** Below wrap-around, a run of ticks adds the samples kept to
      samples_produced, the samples dropped to read_errors and the alerts
      to alerts_triggered, and leaves last_error alone. */
  lemma {:induction false} StatsAfterCounts(st: Stats, q: seq<Sample>, xs: seq<Sample>, alerts: seq<bool>)
    requires |q| <= MAX_SAMPLES && |alerts| == |xs|
    requires st.samplesProduced + |xs| < TWO_32 && st.readErrors + |xs| < TWO_32
    requires st.alertsTriggered + |xs| < TWO_32
    ensures |q| <= |OfferAll(q, xs)|
    ensures StatsAfter(st, q, xs, alerts).samplesProduced == st.samplesProduced + |OfferAll(q, xs)| - |q|
    ensures StatsAfter(st, q, xs, alerts).readErrors == st.readErrors + DroppedCount(q, xs)
    ensures StatsAfter(st, q, xs, alerts).alertsTriggered == st.alertsTriggered + CountAlerts(alerts)
    ensures StatsAfter(st, q, xs, alerts).lastError == st.lastError
    decreases |xs|
  {
    if xs != [] {
      var st' := TickStats(st, alerts[0], |q| == MAX_SAMPLES);
      var q' := Offer(q, xs[0]);
      StatsAfterCounts(st', q', xs[1..], alerts[1..]);
      assert OfferAll(q, xs) == OfferAll(q', xs[1..]);
      assert DroppedCount(q, xs) == (if |q| == MAX_SAMPLES then 1 else 0) + DroppedCount(q', xs[1..]);
      assert CountAlerts(alerts) == (if alerts[0] then 1 else 0) + CountAlerts(alerts[1..]);
    }
  }

  /** Forty ticks into an empty queue with fresh statistics and no reads
      keep the first 32 samples and drop the last 8: samples_produced ends
      at 32, read_errors at 8, and last_error stays 0. */
  lemma FortyTicksKeepFirstThirtyTwo(xs: seq<Sample>, alerts: seq<bool>)
    requires |xs| == 40 && |alerts| == 40
    ensures OfferAll([], xs) == xs[..32]
    ensures DroppedCount([], xs) == 8
    ensures StatsAfter(Stats(0, 0, 0, 0), [], xs, alerts).samplesProduced == 32
    ensures StatsAfter(Stats(0, 0, 0, 0), [], xs, alerts).readErrors == 8
    ensures StatsAfter(Stats(0, 0, 0, 0), [], xs, alerts).alertsTriggered == CountAlerts(alerts)
    ensures StatsAfter(Stats(0, 0, 0, 0), [], xs, alerts).lastError == 0
  {
    OfferAllKeepsOldest([], xs);
    assert [] + xs == xs;
    StatsAfterCounts(Stats(0, 0, 0, 0), [], xs, alerts);
  }

  // -------------------------------------------------------------- device

  /** The ring slot of position k, for positions less than two laps. */
  function Slot(k: nat): (slot: nat)
    requires k < 2 * MAX_SAMPLES
    ensures slot == k % MAX_SAMPLES
  {
    if k < MAX_SAMPLES then k else k - MAX_SAMPLES
  }

  /** The slots of `buf` from `readIdx` on, wrapping once, hold `contents`
      in order: the ring stores the queue. */
  ghost predicate RingHolds(buf: seq<Sample>, readIdx: nat, contents: seq<Sample>) {
    |buf| == MAX_SAMPLES && readIdx < MAX_SAMPLES && |contents| <= MAX_SAMPLES &&
    forall i :: 0 <= i < |contents| ==> contents[i] == buf[Slot(readIdx + i)]
  }

  /** Writing the slot after the last queued one appends to the queue. */
  lemma RingPush(buf: seq<Sample>, readIdx: nat, contents: seq<Sample>, x: Sample)
    requires RingHolds(buf, readIdx, contents) && |contents| < MAX_SAMPLES
    ensures Slot(readIdx + |contents|) < |buf|
    ensures RingHolds(buf[Slot(readIdx + |contents|) := x], readIdx, contents + [x])
  {
    var w := Slot(readIdx + |contents|);
    var buf' := buf[w := x];
    forall i | 0 <= i < |contents| + 1
      ensures (contents + [x])[i] == buf'[Slot(readIdx + i)]
    {
      if i < |contents| {
        assert Slot(readIdx + i) != w;
      }
    }
  }

  /** The slot at the read index holds the oldest queued sample; moving the
      read index on removes it from the queue. */
  lemma RingPop(buf: seq<Sample>, readIdx: nat, contents: seq<Sample>)
    requires RingHolds(buf, readIdx, contents) && |contents| > 0
    ensures buf[readIdx] == contents[0]
    ensures RingHolds(buf, (readIdx + 1) % MAX_SAMPLES, contents[1..])
  {
    var r' := (readIdx + 1) % MAX_SAMPLES;
    assert contents[0] == buf[Slot(readIdx + 0)];
    forall i | 0 <= i < |contents| - 1
      ensures contents[1..][i] == buf[Slot(r' + i)]
    {
      assert contents[1..][i] == contents[i + 1] == buf[Slot(readIdx + (i + 1))];
    }
  }

  /** struct simtemp_dev without its kernel handles (platform device, cdev,
      class, mutex, wait queues, timer). */
  class Device {
    // configuration
    var samplingMs: u32
    var thresholdMC: s32
    var mode: Mode

    // the sample ring
    const buffer: array<Sample>
    var readIdx: nat
    var writeIdx: nat
    var count: nat

    var currentTempMC: s32
    /** Written by the threshold setters and never read. */
    ghost var thresholdCrossed: bool
    var stats: Stats

    // ramp state
    var rampBase: s32
    var rampRising: bool

    /** The queued samples, oldest first. */
    ghost var Contents: seq<Sample>

    ghost predicate Valid()
      reads this, buffer
    {
      buffer.Length == MAX_SAMPLES &&
      readIdx < MAX_SAMPLES && writeIdx < MAX_SAMPLES && count <= MAX_SAMPLES &&
      writeIdx == Slot(readIdx + count) &&
      |Contents| == count &&
      RingHolds(buffer[..], readIdx, Contents) &&
      (mode == Ramp ==> RampWellFormed(rampBase, rampRising))
    }

    /** The state simtemp_probe sets up: a zero-filled allocation, then the
        defaults, then the device-tree values where present. A sampling
        period from the device tree is not range-checked; the threshold is
        read as a u32 into the signed field. */
    constructor (dtSamplingMs: Option<u32>, dtThresholdWord: Option<u32>)
      ensures Valid() && fresh(buffer)
      ensures samplingMs == if dtSamplingMs.Some? then dtSamplingMs.value else DEFAULT_SAMPLING_MS
      ensures thresholdMC == if dtThresholdWord.Some? then ToS32(dtThresholdWord.value) else DEFAULT_THRESHOLD_MC
      ensures mode == Normal && currentTempMC == DEFAULT_TEMP_MC
      ensures Contents == [] && readIdx == 0 && writeIdx == 0
      ensures stats == Stats(0, 0, 0, 0)
      ensures rampBase == 0 && !rampRising && !thresholdCrossed
    {
      buffer := new Sample[MAX_SAMPLES](_ => Sample(0, 0, 0));
      readIdx, writeIdx, count := 0, 0, 0;
      thresholdCrossed := false;
      stats := Stats(0, 0, 0, 0);
      rampBase, rampRising := 0, false;
      samplingMs := DEFAULT_SAMPLING_MS;
      thresholdMC := DEFAULT_THRESHOLD_MC;
      mode := Normal;
      currentTempMC := DEFAULT_TEMP_MC;
      if dtSamplingMs.Some? {
        samplingMs := dtSamplingMs.value;
      }
      if dtThresholdWord.Some? {
        thresholdMC := ToS32(dtThresholdWord.value);
      }
      Contents := [];
    }

    /** simtemp_poll: readable exactly when a sample is queued; the priority
        bit is reported on every call. */
    function Poll(): (mask: bv32)
      reads this
      ensures (mask & EPOLLIN != 0) == (count > 0)
      ensures (mask & EPOLLRDNORM != 0) == (count > 0)
      ensures mask & EPOLLPRI != 0
      ensures mask & !(EPOLLIN | EPOLLRDNORM | EPOLLPRI) == 0
    {
      var mask := if count > 0 then EPOLLIN | EPOLLRDNORM else 0;
      mask | EPOLLPRI
    }

    /** mode_show. */
    function ModeShow(): (text: string)
      reads this
      ensures ParseModeName(text) == Some(mode)
    {
      ModeName(mode) + "\n"
    }

    /** simulate_temperature_ramp. */
    method SimulateRamp() returns (t: s32)
      requires Valid() && mode == Ramp
      modifies this`rampBase, this`rampRising
      ensures Valid()
      ensures RampState(rampBase, rampRising) == RampStep(old(rampBase), old(rampRising))
      ensures t == rampBase
    {
      if rampRising {
        rampBase := rampBase + RAMP_STEP_MC;
        if rampBase >= RAMP_MAX_MC {
          rampBase := RAMP_MAX_MC;
          rampRising := false;
        }
      } else {
        rampBase := rampBase - RAMP_STEP_MC;
        if rampBase <= RAMP_MIN_MC {
          rampBase := RAMP_MIN_MC;
          rampRising := true;
        }
      }
      t := rampBase;
    }

    /** simulate_temperature: dispatch on the mode; only ramp mode changes
        state. */
    method SimulateTemperature(random: u32) returns (t: s32)
      requires Valid()
      modifies this`rampBase, this`rampRising
      ensures Valid()
      ensures t == NextTemp(mode, old(rampBase), old(rampRising), random)
      ensures RampState(rampBase, rampRising) ==
        if mode == Ramp then RampStep(old(rampBase), old(rampRising))
        else RampState(old(rampBase), old(rampRising))
    {
      match mode
      case Normal =>
        t := NormalTemp(random);
      case Noisy =>
        t := NoisyTemp(random);
      case Ramp =>
        t := SimulateRamp();
    }

    /** The enqueue step of sample_timer_callback: store the sample in the
        next free slot, or, with all 32 slots taken, drop it and count the
        drop in read_errors. */
    method Enqueue(sample: Sample)
      requires Valid()
      modifies this`writeIdx, this`count, this`stats, this`Contents, buffer
      ensures Valid()
      ensures Contents == Offer(old(Contents), sample)
      ensures old(count) < MAX_SAMPLES ==>
        buffer[old(writeIdx)] == sample &&
        (forall i :: 0 <= i < MAX_SAMPLES && i != old(writeIdx) ==> buffer[i] == old(buffer[i])) &&
        writeIdx == (old(writeIdx) + 1) % MAX_SAMPLES && count == old(count) + 1 &&
        stats == old(stats).(samplesProduced := Inc32(old(stats.samplesProduced)))
      ensures old(count) == MAX_SAMPLES ==>
        buffer[..] == old(buffer[..]) && writeIdx == old(writeIdx) && count == old(count) &&
        stats == old(stats).(readErrors := Inc32(old(stats.readErrors)))
    {
      if count < MAX_SAMPLES {
        RingPush(buffer[..], readIdx, Contents, sample);
        buffer[writeIdx] := sample;
        writeIdx := (writeIdx + 1) % MAX_SAMPLES;
        count := count + 1;
        stats := stats.(samplesProduced := Inc32(stats.samplesProduced));
        Contents := Contents + [sample];
      } else {
        stats := stats.(readErrors := Inc32(stats.readErrors));
      }
    }

    /** The threshold check of sample_timer_callback, against the stored
        temperature of the previous tick; an alert is counted in
        alerts_triggered. */
    method CheckThreshold(temp: s32) returns (alert: bool)
      requires Valid()
      modifies this`stats
      ensures Valid()
      ensures alert == Alert(currentTempMC, thresholdMC, temp)
      ensures stats == if alert then old(stats).(alertsTriggered := Inc32(old(stats.alertsTriggered))) else old(stats)
    {
      alert := false;
      if currentTempMC > thresholdMC && temp >= thresholdMC {
        alert := true;
        stats := stats.(alertsTriggered := Inc32(stats.alertsTriggered));
      }
    }

    /** sample_timer_callback: generate a sample, test the alert, store the
        temperature, then enqueue it or count the drop. `alert` says whether
        the priority wait queue is woken; the read wait queue always is. */
    method Tick(timestampNs: u64, random: u32) returns (sample: Sample, alert: bool)
      requires Valid()
      modifies this`rampBase, this`rampRising, this`stats, this`currentTempMC
      modifies this`writeIdx, this`count, this`Contents, buffer
      ensures Valid()
      ensures sample.timestampNs == timestampNs
      ensures sample.tempMC == NextTemp(mode, old(rampBase), old(rampRising), random)
      ensures alert == Alert(old(currentTempMC), thresholdMC, sample.tempMC)
      ensures sample.flags == SampleFlags(alert)
      ensures currentTempMC == sample.tempMC
      ensures RampState(rampBase, rampRising) ==
        if mode == Ramp then RampStep(old(rampBase), old(rampRising))
        else RampState(old(rampBase), old(rampRising))
      ensures Contents == Offer(old(Contents), sample)
      ensures old(count) < MAX_SAMPLES ==>
        buffer[old(writeIdx)] == sample &&
        (forall i :: 0 <= i < MAX_SAMPLES && i != old(writeIdx) ==> buffer[i] == old(buffer[i])) &&
        writeIdx == (old(writeIdx) + 1) % MAX_SAMPLES && count == old(count) + 1
      ensures old(count) == MAX_SAMPLES ==>
        buffer[..] == old(buffer[..]) && writeIdx == old(writeIdx) && count == old(count)
      ensures stats == TickStats(old(stats), alert, old(count) == MAX_SAMPLES)
    {
      var temp := SimulateTemperature(random);
      alert := CheckThreshold(temp);
      sample := Sample(timestampNs, temp, SampleFlags(alert));
      currentTempMC := temp;
      Enqueue(sample);
    }

    /** simtemp_read with a user buffer of `userCount` bytes. A blocking read
        on an empty queue can only end, within one atomic step, by the
        wait being interrupted. The sample is removed before the copy to
        user memory, so it is consumed even when that copy faults. */
    method Read(userCount: nat, nonBlocking: bool, copyOk: bool) returns (outcome: ReadOutcome)
      requires Valid()
      modifies this
      ensures Valid()
      ensures userCount < SAMPLE_SIZE ==> outcome == InvalidLength && unchanged(this)
      ensures userCount >= SAMPLE_SIZE && old(count) == 0 ==>
        outcome == (if nonBlocking then WouldBlock else Interrupted) && unchanged(this)
      ensures userCount >= SAMPLE_SIZE && old(count) > 0 ==>
        outcome == (if copyOk then Copied(old(Contents)[0]) else Fault) &&
        Contents == old(Contents)[1..] &&
        readIdx == (old(readIdx) + 1) % MAX_SAMPLES && count == old(count) - 1 &&
        writeIdx == old(writeIdx) && stats == old(stats) &&
        currentTempMC == old(currentTempMC) && samplingMs == old(samplingMs) &&
        thresholdMC == old(thresholdMC) && mode == old(mode) &&
        rampBase == old(rampBase) && rampRising == old(rampRising) &&
        thresholdCrossed == old(thresholdCrossed)
    {
      if userCount < SAMPLE_SIZE {
        return InvalidLength;
      }
      if count == 0 {
        if nonBlocking {
          return WouldBlock;
        }
        return Interrupted;
      }
      RingPop(buffer[..], readIdx, Contents);
      var sample := buffer[readIdx];
      readIdx := (readIdx + 1) % MAX_SAMPLES;
      count := count - 1;
      Contents := Contents[1..];
      if copyOk {
        outcome := Copied(sample);
      } else {
        outcome := Fault;
      }
    }

    /** sampling_ms_store after kstrtoul; `len` is the length of the write. */
    method SamplingMsStore(input: Parsed<u64>, len: nat) returns (ret: int)
      requires Valid()
      modifies this`samplingMs
      ensures Valid()
      ensures input.ParseError? ==> ret == input.code && samplingMs == old(samplingMs)
      ensures input.Value? && (input.v < MIN_SAMPLING_MS || input.v > MAX_SAMPLING_MS) ==>
        ret == -EINVAL && samplingMs == old(samplingMs)
      ensures input.Value? && MIN_SAMPLING_MS <= input.v <= MAX_SAMPLING_MS ==>
        ret == len && samplingMs == input.v
    {
      match input
      case ParseError(code) =>
        return code;
      case Value(v) =>
        if v < MIN_SAMPLING_MS || v > MAX_SAMPLING_MS {
          return -EINVAL;
        }
        samplingMs := v;
        ret := len;
    }

    /** threshold_mC_store after kstrtol: any long is accepted and its low 32
        bits are stored in the signed threshold. */
    method ThresholdStore(input: Parsed<i64>, len: nat) returns (ret: int)
      requires Valid()
      modifies this`thresholdMC, this`thresholdCrossed
      ensures Valid()
      ensures input.ParseError? ==>
        ret == input.code && thresholdMC == old(thresholdMC) && thresholdCrossed == old(thresholdCrossed)
      ensures input.Value? ==> ret == len && thresholdMC == ToS32(U32(input.v)) && !thresholdCrossed
      ensures input.Value? && -TWO_31 <= input.v < TWO_31 ==> thresholdMC == input.v
    {
      match input
      case ParseError(code) =>
        return code;
      case Value(v) =>
        thresholdMC := ToS32(U32(v));
        thresholdCrossed := false;
        ret := len;
    }

    /** mode_store: one of the three names (optionally followed by a
        newline) selects its mode; choosing ramp restarts the ramp even when
        ramp is already selected; anything else is refused. */
    method ModeStore(buf: string, len: nat) returns (ret: int)
      requires Valid()
      modifies this`mode, this`rampBase, this`rampRising
      ensures Valid()
      ensures ParseModeName(buf).None? ==> ret == -EINVAL && unchanged(this)
      ensures ParseModeName(buf).Some? ==> ret == len && mode == ParseModeName(buf).value
      ensures ParseModeName(buf) == Some(Ramp) ==> rampBase == RAMP_START_MC && rampRising
      ensures ParseModeName(buf) != Some(Ramp) ==> rampBase == old(rampBase) && rampRising == old(rampRising)
    {
      if SysfsStreq(buf, "normal") {
        mode := Normal;
      } else if SysfsStreq(buf, "noisy") {
        mode := Noisy;
      } else if SysfsStreq(buf, "ramp") {
        mode := Ramp;
        rampBase := RAMP_START_MC;
        rampRising := true;
      } else {
        return -EINVAL;
      }
      ret := len;
    }

    /** The SIMTEMP_SET_SAMPLING case: range-checked like the sysfs setter. */
    method IoctlSetSampling(userWord: Option<u32>) returns (ret: int)
      requires Valid()
      modifies this`samplingMs
      ensures Valid()
      ensures userWord.None? ==> ret == -EFAULT && samplingMs == old(samplingMs)
      ensures userWord.Some? && (userWord.value < MIN_SAMPLING_MS || userWord.value > MAX_SAMPLING_MS) ==>
        ret == -EINVAL && samplingMs == old(samplingMs)
      ensures userWord.Some? && MIN_SAMPLING_MS <= userWord.value <= MAX_SAMPLING_MS ==>
        ret == 0 && samplingMs == userWord.value
    {
      if userWord.None? {
        return -EFAULT;
      }
      var ms := userWord.value;
      if ms < MIN_SAMPLING_MS || ms > MAX_SAMPLING_MS {
        return -EINVAL;
      }
      samplingMs := ms;
      ret := 0;
    }

    /** The SIMTEMP_SET_THRESHOLD case: the four bytes copied in are an
        __s32, so the word is read as two's complement; any value is taken. */
    method IoctlSetThreshold(userWord: Option<u32>) returns (ret: int)
      requires Valid()
      modifies this`thresholdMC, this`thresholdCrossed
      ensures Valid()
      ensures userWord.None? ==>
        ret == -EFAULT && thresholdMC == old(thresholdMC) && thresholdCrossed == old(thresholdCrossed)
      ensures userWord.Some? ==> ret == 0 && thresholdMC == ToS32(userWord.value) && !thresholdCrossed
    {
      if userWord.None? {
        return -EFAULT;
      }
      thresholdMC := ToS32(userWord.value);
      thresholdCrossed := false;
      ret := 0;
    }

    /** The SIMTEMP_SET_MODE case: a number below MODE_MAX selects its mode
        and, for ramp, restarts the ramp. */
    method IoctlSetMode(userWord: Option<u32>) returns (ret: int)
      requires Valid()
      modifies this`mode, this`rampBase, this`rampRising
      ensures Valid()
      ensures userWord.None? ==> ret == -EFAULT && unchanged(this)
      ensures userWord.Some? && ModeOfValue(userWord.value).None? ==> ret == -EINVAL && unchanged(this)
      ensures userWord.Some? && ModeOfValue(userWord.value).Some? ==>
        ret == 0 && mode == ModeOfValue(userWord.value).value
      ensures ret == 0 && mode == Ramp ==> rampBase == RAMP_START_MC && rampRising
      ensures !(ret == 0 && mode == Ramp) ==> rampBase == old(rampBase) && rampRising == old(rampRising)
    {
      if userWord.None? {
        return -EFAULT;
      }
      var raw := userWord.value;
      if raw >= MODE_MAX {
        return -EINVAL;
      }
      mode := ModeOfValue(raw).value;
      if mode == Ramp {
        rampBase := RAMP_START_MC;
        rampRising := true;
      }
      ret := 0;
    }

    /** simtemp_ioctl. `userWord` is the 4-byte argument copy_from_user
        reads (None when the copy fails), `userWritable` whether
        copy_to_user of the statistics succeeds; `copiedStats` is what
        GET_STATS writes to user memory. */
    method Ioctl(cmd: u32, userWord: Option<u32>, userWritable: bool) returns (ret: int, copiedStats: Option<Stats>)
      requires Valid()
      modifies this`samplingMs, this`thresholdMC, this`thresholdCrossed, this`mode, this`rampBase, this`rampRising
      ensures Valid()
      ensures CommandOf(cmd).None? ==> ret == -ENOTTY && copiedStats.None? && unchanged(this)
      ensures CommandOf(cmd).Some? && CommandOf(cmd).value != GetStats && userWord.None? ==>
        ret == -EFAULT && copiedStats.None? && unchanged(this)
      ensures CommandOf(cmd) == Some(SetSampling) && userWord.Some? ==>
        copiedStats.None? &&
        if MIN_SAMPLING_MS <= userWord.value <= MAX_SAMPLING_MS
        then ret == 0 && samplingMs == userWord.value
        else ret == -EINVAL && unchanged(this)
      ensures CommandOf(cmd) == Some(SetThreshold) && userWord.Some? ==>
        ret == 0 && copiedStats.None? &&
        thresholdMC == ToS32(userWord.value) && !thresholdCrossed
      ensures CommandOf(cmd) == Some(SetMode) && userWord.Some? ==>
        copiedStats.None? &&
        match ModeOfValue(userWord.value)
        case None => ret == -EINVAL && unchanged(this)
        case Some(m) =>
          (ret == 0 && mode == m &&
           (m == Ramp ==> rampBase == RAMP_START_MC && rampRising) &&
           (m != Ramp ==> rampBase == old(rampBase) && rampRising == old(rampRising)))
      ensures CommandOf(cmd) == Some(GetStats) ==>
        unchanged(this) &&
        if userWritable then ret == 0 && copiedStats == Some(stats)
        else ret == -EFAULT && copiedStats.None?
      ensures CommandOf(cmd) != Some(SetSampling) ==> samplingMs == old(samplingMs)
      ensures CommandOf(cmd) != Some(SetThreshold) ==>
        thresholdMC == old(thresholdMC) && thresholdCrossed == old(thresholdCrossed)
      ensures CommandOf(cmd) != Some(SetMode) ==>
        mode == old(mode) && rampBase == old(rampBase) && rampRising == old(rampRising)
    {
      copiedStats := None;
      match CommandOf(cmd)
      case None =>
        ret := -ENOTTY;
      case Some(SetSampling) =>
        ret := IoctlSetSampling(userWord);
      case Some(SetThreshold) =>
        ret := IoctlSetThreshold(userWord);
      case Some(SetMode) =>
        ret := IoctlSetMode(userWord);
      case Some(GetStats) =>
        var snapshot := stats;
        if !userWritable {
          return -EFAULT, None;
        }
        copiedStats := Some(snapshot);
        ret := 0;
    }
  }
}
