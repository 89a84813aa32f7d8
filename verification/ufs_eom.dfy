/** The C program `ufseom`: its globals, the scan of one point and the sweep. */
module UfsEom {
  import opened Words
  import opened Wrappers
  import opened Uic
  import opened Grid
  import opened EomTrace
  import opened Report
  import opened Text
  import PatternGenerator

  const EOM_TIMING_VOLTAGE_INIT: int := 0xFF
  const EOM_TARGET_TEST_COUNT_DEFAULT: Word32 := 0x5D
  const EOM_TARGET_TEST_COUNT_MAX: nat := 0x7F
  const EOM_SUPPORTED_MIN_GEAR: int := 4

  /** What the command line gave, after the range checks of its options. */
  datatype Options = Options(
    side: Side, lane: Option<nat>, target: Option<Word32>,
    voltageLow: int, voltageHigh: int, timingLeft: int, timingRight: int, doIo: bool)

  predicate ValidOptions(o: Options) {
    && (o.lane.Some? ==> o.lane.value <= 1)
    && (o.target.Some? ==> 0 < o.target.value <= EOM_TARGET_TEST_COUNT_MAX)
  }

  /** The limit of a sweep: 0xFF stands for "not given". */
  function Limit(given: int, hardware: int): int {
    if given == EOM_TIMING_VOLTAGE_INIT then hardware else given
  }

  // ----- What a device must offer -----

  /** The link the monitor runs on: the capability bit, a supported gear, and a rate. */
  predicate LinkReady(regs: map<Register, Word32>, side: Side, lane: nat) {
    && StaticValue(regs, RxRegister(side, lane, RX_EYEMON_CAPABILITY)) >= 0
    && StaticValue(regs, RxRegister(side, lane, RX_EYEMON_CAPABILITY)) % 2 == 1
    && StaticValue(regs, RxRegister(Local, 0, PA_RXGEAR)) >= EOM_SUPPORTED_MIN_GEAR
    && StaticValue(regs, RxRegister(Local, 0, RX_HSRATE_SERIES)) >= 0
  }

  /** How far, and in what steps, a lane's monitor can move. */
  datatype Limits = Limits(timingMaxSteps: int, timingMaxOffset: int, voltageMaxSteps: int, voltageMaxOffset: int)

  function LimitsOf(regs: map<Register, Word32>, side: Side, lane: nat): Limits {
    Limits(StaticValue(regs, RxRegister(side, lane, RX_EYEMON_TIMING_MAX_STEPS_CAPABILITY)),
           StaticValue(regs, RxRegister(side, lane, RX_EYEMON_TIMING_MAX_OFFSET_CAPABILITY)),
           StaticValue(regs, RxRegister(side, lane, RX_EYEMON_VOLTAGE_MAX_STEPS_CAPABILITY)),
           StaticValue(regs, RxRegister(side, lane, RX_EYEMON_VOLTAGE_MAX_OFFSET_CAPABILITY)))
  }

  predicate Readable(l: Limits) {
    l.timingMaxSteps >= 0 && l.timingMaxOffset >= 0 && l.voltageMaxSteps >= 0 && l.voltageMaxOffset >= 0
  }

  /** The four limits of a sweep. */
  datatype Range = Range(left: int, right: int, low: int, high: int)

  /** The range asked for, with the hardware's limits where none was given. */
  function Filled(asked: Range, l: Limits): Range {
    Range(Limit(asked.left, -l.timingMaxSteps), Limit(asked.right, l.timingMaxSteps),
          Limit(asked.low, -l.voltageMaxSteps), Limit(asked.high, l.voltageMaxSteps))
  }

  predicate Within(range: Range, l: Limits) {
    && -l.timingMaxSteps <= range.left <= range.right <= l.timingMaxSteps
    && -l.voltageMaxSteps <= range.low <= range.high <= l.voltageMaxSteps
  }

  function WindowOf(range: Range): Window
    requires range.left <= range.right && range.low <= range.high
  {
    Window(range.left, range.right - range.left + 1, range.low, range.high - range.low + 1)
  }

  /** The point respects every limit that was given, and the hardware's where none was. */
  predicate Admits(asked: Range, l: Limits, timing: int, volt: int) {
    && (asked.left != EOM_TIMING_VOLTAGE_INIT ==> asked.left <= timing)
    && (asked.left == EOM_TIMING_VOLTAGE_INIT ==> -l.timingMaxSteps <= timing)
    && (asked.right != EOM_TIMING_VOLTAGE_INIT ==> timing <= asked.right)
    && (asked.right == EOM_TIMING_VOLTAGE_INIT ==> timing <= l.timingMaxSteps)
    && (asked.low != EOM_TIMING_VOLTAGE_INIT ==> asked.low <= volt)
    && (asked.low == EOM_TIMING_VOLTAGE_INIT ==> -l.voltageMaxSteps <= volt)
    && (asked.high != EOM_TIMING_VOLTAGE_INIT ==> volt <= asked.high)
    && (asked.high == EOM_TIMING_VOLTAGE_INIT ==> volt <= l.voltageMaxSteps)
  }

  /** The hardware can be set to the point. */
  predicate Reachable(l: Limits, timing: int, volt: int) {
    -l.timingMaxSteps <= timing <= l.timingMaxSteps && -l.voltageMaxSteps <= volt <= l.voltageMaxSteps
  }

  /** There is a point to sweep, and the hardware can be set to all of them. */
  ghost predicate Sweepable(asked: Range, l: Limits) {
    && (exists t, v :: Admits(asked, l, t, v))
    && (forall t, v :: Admits(asked, l, t, v) ==> Reachable(l, t, v))
  }

  /** The check of the range lets through exactly what can be swept. */
  lemma SanityExactly(asked: Range, l: Limits)
    ensures Within(Filled(asked, l), l) <==> Sweepable(asked, l)
  {
    var r := Filled(asked, l);
    if Within(r, l) {
      assert Admits(asked, l, r.left, r.low);
    }
    if Sweepable(asked, l) {
      var t, v :| Admits(asked, l, t, v);
      assert Admits(asked, l, r.left, r.low) && Admits(asked, l, r.right, r.high);
    }
  }

  /** And what is swept are exactly the points that respect the limits, on the lanes asked for. */
  lemma SweptAdmitted(asked: Range, l: Limits, first: nat, lanes: nat, c: Cell)
    requires Sweepable(asked, l)
    ensures Filled(asked, l).left <= Filled(asked, l).right && Filled(asked, l).low <= Filled(asked, l).high
    ensures c in AllCells(first, lanes, WindowOf(Filled(asked, l))) <==>
      first <= c.lane < first + lanes && Admits(asked, l, c.timing, c.volt)
  {
    SanityExactly(asked, l);
    SweepIsGrid(first, lanes, WindowOf(Filled(asked, l)));
    assert c in AllCells(first, lanes, WindowOf(Filled(asked, l))) <==>
      InSweep(first, lanes, WindowOf(Filled(asked, l)), c);
  }

  /** A register that `uic_get` reads without an error, and not as a negative number. */
  predicate ReadsAsNat(regs: map<Register, Word32>, r: Register) {
    r in regs && regs[r] < 0x8000_0000
  }

  /** The device offers the sweep that is asked for. */
  predicate CanSweep(regs: map<Register, Word32>, side: Side, lane: nat, asked: Range) {
    var l := LimitsOf(regs, side, lane);
    LinkReady(regs, side, lane) && Readable(l) && Within(Filled(asked, l), l)
  }

  /** What that takes of the registers: the lowest bit of the capability, gear 4 or more, a rate and four
      limits that can be read, and a range that can be swept. */
  lemma CanSweepExactly(regs: map<Register, Word32>, side: Side, lane: nat, asked: Range)
    ensures CanSweep(regs, side, lane, asked) <==>
      && ReadsAsNat(regs, RxRegister(side, lane, 0xF1)) && (exists n: nat :: regs[RxRegister(side, lane, 0xF1)] == 2 * n + 1)
      && ReadsAsNat(regs, RxRegister(Local, 0, 0x1583)) && regs[RxRegister(Local, 0, 0x1583)] >= 4
      && ReadsAsNat(regs, RxRegister(Local, 0, 0xA2))
      && (forall a: nat | 0xF2 <= a <= 0xF5 :: ReadsAsNat(regs, RxRegister(side, lane, a)))
      && Sweepable(asked, Limits(regs[RxRegister(side, lane, 0xF2)], regs[RxRegister(side, lane, 0xF3)],
                                 regs[RxRegister(side, lane, 0xF4)], regs[RxRegister(side, lane, 0xF5)]))
  {
    SanityExactly(asked, LimitsOf(regs, side, lane));
    hide Sweepable, Within, Filled;
    var cap := RxRegister(side, lane, 0xF1);
    if cap in regs && regs[cap] % 2 == 1 {
      assert regs[cap] == 2 * (regs[cap] / 2) + 1;
    }
    LimitsReadable(regs, side, lane);
    if Readable(LimitsOf(regs, side, lane)) {
      assert forall a: nat | 0xF2 <= a <= 0xF5 :: ReadsAsNat(regs, RxRegister(side, lane, a));
    }
  }

  lemma LimitsReadable(regs: map<Register, Word32>, side: Side, lane: nat)
    ensures Readable(LimitsOf(regs, side, lane)) <==>
      forall a: nat | 0xF2 <= a <= 0xF5 :: ReadsAsNat(regs, RxRegister(side, lane, a))
  {
    if forall a: nat | 0xF2 <= a <= 0xF5 :: ReadsAsNat(regs, RxRegister(side, lane, a)) {
      assert ReadsAsNat(regs, RxRegister(side, lane, 0xF2)) && ReadsAsNat(regs, RxRegister(side, lane, 0xF3));
      assert ReadsAsNat(regs, RxRegister(side, lane, 0xF4)) && ReadsAsNat(regs, RxRegister(side, lane, 0xF5));
    }
    if Readable(LimitsOf(regs, side, lane)) {
      forall a: nat | 0xF2 <= a <= 0xF5
        ensures ReadsAsNat(regs, RxRegister(side, lane, a))
      {
        assert a == 0xF2 || a == 0xF3 || a == 0xF4 || a == 0xF5;
      }
    }
  }

  /** The header of the report about a device that holds these registers. */
  function HeaderOf(regs: map<Register, Word32>, side: Side, lane: nat, names: DeviceNames): Header {
    Header(side, names,
           StaticValue(regs, RxRegister(Local, 0, PA_RXGEAR)), StaticValue(regs, RxRegister(Local, 0, RX_HSRATE_SERIES)),
           StaticValue(regs, RxRegister(side, lane, RX_EYEMON_TIMING_MAX_STEPS_CAPABILITY)),
           StaticValue(regs, RxRegister(side, lane, RX_EYEMON_TIMING_MAX_OFFSET_CAPABILITY)),
           StaticValue(regs, RxRegister(side, lane, RX_EYEMON_VOLTAGE_MAX_STEPS_CAPABILITY)),
           StaticValue(regs, RxRegister(side, lane, RX_EYEMON_VOLTAGE_MAX_OFFSET_CAPABILITY)))
  }

  /** What a faithful device records for a cell. */
  function OracleResult(oracle: (Register, Word32, Word32, Word32) -> Counters,
                        side: Side, target: Word32, c: Cell): EomResult {
    EomResult(c.lane, c.timing, c.volt,
              oracle(RxRegister(side, c.lane, RX_EYEMON_START), EncodeSteps(c.timing), EncodeSteps(c.volt), target).errors)
  }

  /** The results are what the oracle says about the cells, in their order. */
  ghost predicate RecordedFrom(oracle: (Register, Word32, Word32, Word32) -> Counters, side: Side, target: Word32,
                               cells: seq<Cell>, results: seq<EomResult>) {
    && |results| == |cells|
    && forall i | 0 <= i < |cells| :: results[i] == OracleResult(oracle, side, target, cells[i])
  }

  /** The poll of the link state: all reads but the last show a link that is not up, the last one that it
      is, or that it cannot be read. */
  predicate LinkWait(polls: seq<Event>) {
    && polls != []
    && (forall i | 0 <= i < |polls| ::
         !polls[i].isSet && polls[i].reg == Register(Local, SelectTx(0), QCOM_DME_VS_UNIPRO_STATE))
    && (forall i | 0 <= i < |polls| - 1 :: polls[i].ok && polls[i].value % 8 != UNIPRO_STATE_LINK_UP)
    && (var last := polls[|polls| - 1];
        !last.ok || last.value >= 0x8000_0000 || last.value % 8 == UNIPRO_STATE_LINK_UP)
  }

  /** The first reads after the six writes are the poll of the link state. */
  ghost predicate Waited(before: seq<Event>, after: seq<Event>) {
    exists n :: WaitedUntil(before, after, n)
  }

  ghost predicate WaitedUntil(before: seq<Event>, after: seq<Event>, n: nat) {
    |before| + 6 < n <= |after| && LinkWait(after[|before| + 6..n])
  }

  /** How often the start register was read. */
  function StartReads(tr: seq<Event>, side: Side, lane: nat): nat {
    if tr == [] then 0
    else
      var e := tr[|tr| - 1];
      StartReads(tr[..|tr| - 1], side, lane)
      + if !e.isSet && e.reg == RxRegister(side, lane, RX_EYEMON_START) then 1 else 0
  }

  lemma {:induction false} StartReadsAppend(a: seq<Event>, b: seq<Event>, side: Side, lane: nat)
    ensures StartReads(a + b, side, lane) == StartReads(a, side, lane) + StartReads(b, side, lane)
    decreases |b|
  {
    if b == [] {
      assert a + b == a;
    } else {
      var n := |b| - 1;
      StartReadsAppend(a, b[..n], side, lane);
      assert (a + b)[..|a| + n] == a + b[..n];
    }
  }

  lemma StartReadsSince(t0: seq<Event>, t1: seq<Event>, t2: seq<Event>, side: Side, lane: nat)
    requires t0 <= t1 <= t2
    ensures StartReads(t2[|t0|..], side, lane) == StartReads(t1[|t0|..], side, lane) + StartReads(t2[|t1|..], side, lane)
  {
    StartReadsAppend(t1[|t0|..], t2[|t1|..], side, lane);
    assert t2[|t0|..] == t1[|t0|..] + t2[|t1|..];
  }

  lemma {:induction false} NoStartReads(tr: seq<Event>, side: Side, lane: nat)
    requires forall i | 0 <= i < |tr| :: tr[i].isSet || tr[i].reg != RxRegister(side, lane, RX_EYEMON_START)
    ensures StartReads(tr, side, lane) == 0
  {
    if tr != [] {
      NoStartReads(tr[..|tr| - 1], side, lane);
    }
  }

  /** One round of polling: Start once, and first. */
  lemma RoundReadsStart(t0: seq<Event>, t1: seq<Event>, side: Side, lane: nat)
    requires t0 < t1 && forall i | |t0| <= i < |t1| ::
      !t1[i].isSet && (t1[i].reg == RxRegister(side, lane, RX_EYEMON_START) <==> i == |t0|)
    ensures StartReads(t1[|t0|..], side, lane) == 1
  {
    var first, rest := [t1[|t0|]], t1[|t0| + 1..];
    assert t1[|t0|..] == first + rest && first[..0] == [];
    StartReadsAppend(first, rest, side, lane);
    NoStartReads(rest, side, lane);
  }

  lemma ConfiguredReadsNoStart(t0: seq<Event>, t1: seq<Event>, peer: Side, lane: nat,
                               timing: Word32, volt: Word32, target: Word32)
    requires t0 + ConfigWrites(peer, lane, timing, volt, target) <= t1 && LinkWait(t1[|t0| + 6..])
    ensures StartReads(t1[|t0|..], peer, lane) == 0
  {
    var seg := t1[|t0|..];
    forall i | 0 <= i < |seg|
      ensures seg[i].isSet || seg[i].reg != RxRegister(peer, lane, RX_EYEMON_START)
    {
      if i < 6 {
        assert seg[i] == ConfigWrites(peer, lane, timing, volt, target)[i];
      } else {
        assert seg[i] == t1[|t0| + 6..][i - 6];
      }
    }
    NoStartReads(seg, peer, lane);
  }

  lemma PolledSince(t0: seq<Event>, t1: seq<Event>, t2: seq<Event>, peer: Side, lane: nat,
                    timing: Word32, volt: Word32, target: Word32)
    requires t0 + ConfigWrites(peer, lane, timing, volt, target) <= t1 <= t2 && LinkWait(t1[|t0| + 6..])
    ensures StartReads(t2[|t0|..], peer, lane) == StartReads(t2[|t1|..], peer, lane)
    ensures Waited(t0, t2) && |t1| >= |t0| + 6
    ensures t0 + ConfigWrites(peer, lane, timing, volt, target) <= t2
  {
    ConfiguredReadsNoStart(t0, t1, peer, lane, timing, volt, target);
    StartReadsSince(t0, t1, t2, peer, lane);
    assert t2[|t0| + 6..|t1|] == t1[|t0| + 6..];
    assert WaitedUntil(t0, t2, |t1|);
  }

  /** A transfer that exercises the link: what was written, and whether it was read back. */
  datatype Transfer = Transfer(data: seq<Word32>, readBack: bool)

  /** The data of a transfer is the pattern of one seed. */
  ghost predicate Patterned(t: Transfer) {
    exists seed: nat :: seed < 0x8000_0000 && PatternOf(seed, t.data)
  }

  ghost predicate PatternOf(seed: nat, data: seq<Word32>)
    requires seed < 0x8000_0000
  {
    && |data| == PatternGenerator.PATTERN_WORDS
    && forall i | 0 <= i < |data| :: data[i] == PatternGenerator.Returned(seed, i + 1) % 0x1_0000_0000
  }

  /** The transfers since then are those of this side, each with a pattern of its own; without file I/O
      there are none. */
  ghost predicate StressedSince(doIo: bool, before: seq<Transfer>, after: seq<Transfer>, peer: Side) {
    && before <= after && (!doIo ==> after == before)
    && forall i | |before| <= i < |after| :: Patterned(after[i]) && after[i].readBack == (peer == Local)
  }

  lemma StressAdds(doIo: bool, t0: seq<Transfer>, t1: seq<Transfer>, t2: seq<Transfer>, peer: Side)
    requires StressedSince(doIo, t0, t1, peer) && StressedSince(doIo, t1, t2, peer)
    ensures StressedSince(doIo, t0, t2, peer) && |t0| <= |t1| <= |t2|
  {
  }

  lemma NoStress(doIo: bool, t: seq<Transfer>, peer: Side)
    ensures StressedSince(doIo, t, t, peer)
  {
  }

  /** What one round of polling found. */
  datatype Poll = Again | Failed | Conclusive(errors: int)

  class Monitor {
    const dev: UfsDevice
    const localPeer: Side
    const doIo: bool
    const targetTestCount: Word32
    const lane: nat
    const numLanes: nat
    const tmpBuf: array<Word32>
    var voltageLow: int
    var voltageHigh: int
    var timingLeft: int
    var timingRight: int
    var eomResultCount: nat
    var dataCnt: nat
    var er: array<EomResult>
    var timingMaxSteps: int
    var timingMaxOffset: int
    var voltageMaxSteps: int
    var voltageMaxOffset: int
    var gear: int
    var rate: int
    ghost var transfers: seq<Transfer>

    ghost predicate Valid() {
      && dev.Valid()
      && 1 <= numLanes <= 2 && lane + numLanes <= 2
      && 0 < targetTestCount <= EOM_TARGET_TEST_COUNT_MAX
      && (doIo ==> tmpBuf.Length == PatternGenerator.PATTERN_WORDS)
    }

    constructor (dev: UfsDevice, o: Options)
      requires dev.Valid() && ValidOptions(o)
      ensures Valid() && this.dev == dev && localPeer == o.side && doIo == o.doIo
      ensures targetTestCount == if o.target.Some? then o.target.value else EOM_TARGET_TEST_COUNT_DEFAULT
      ensures lane == (if o.lane.Some? then o.lane.value else 0) && numLanes == if o.lane.Some? then 1 else 2
      ensures voltageLow == o.voltageLow && voltageHigh == o.voltageHigh
      ensures timingLeft == o.timingLeft && timingRight == o.timingRight
      ensures dataCnt == 0 && fresh(er) && fresh(tmpBuf) && transfers == []
    {
      this.dev, localPeer, doIo := dev, o.side, o.doIo;
      targetTestCount := if o.target.Some? then o.target.value else EOM_TARGET_TEST_COUNT_DEFAULT;
      if o.lane == None {
        lane, numLanes := 0, 2;
      } else {
        lane, numLanes := o.lane.value, 1;
      }
      voltageLow, voltageHigh := o.voltageLow, o.voltageHigh;
      timingLeft, timingRight := o.timingLeft, o.timingRight;
      tmpBuf := new Word32[if o.doIo then PatternGenerator.PATTERN_WORDS else 0];
      er := new EomResult[0];
      eomResultCount, dataCnt := 0, 0;
      timingMaxSteps, timingMaxOffset, voltageMaxSteps, voltageMaxOffset := 0, 0, 0, 0;
      gear, rate := 0, 0;
      transfers := [];
    }

    ghost predicate Stressed(before: seq<Transfer>, peer: Side)
      reads this
    {
      StressedSince(doIo, before, transfers, peer)
    }

    // ----- One point -----

    /** Programs and starts one measurement. */
    method ConfigEom(peer: Side, lane: nat, timing: Word32, volt: Word32, targetCount: Word32) returns (ret: int)
      requires Valid() && lane < 2 && timing < 0x80 && volt < 0x80 && targetCount <= EOM_TARGET_TEST_COUNT_MAX
      modifies dev
      ensures old(dev.trace) <= dev.trace
      ensures ret == SUCCESS || ret == ERROR
      ensures ret == SUCCESS ==>
        && old(dev.trace) + ConfigWrites(peer, lane, timing, volt, targetCount) <= dev.trace
        && (forall i | |old(dev.trace)| + 6 <= i < |dev.trace| :: !dev.trace[i].isSet)
        && Lookup(dev.regs, RxRegister(peer, lane, RX_EYEMON_TIMING_STEPS)) == timing
        && Lookup(dev.regs, RxRegister(peer, lane, RX_EYEMON_VOLTAGE_STEPS)) == volt
        && Lookup(dev.regs, RxRegister(peer, lane, RX_EYEMON_TARGET_TEST_COUNT)) == targetCount
        && dev.stopped == {}
        && LinkWait(dev.trace[|old(dev.trace)| + 6..])
      ensures dev.faithful ==> ret == SUCCESS
    {
      hide Unvolatile, Volatile, LinkWait;
      ghost var t0 := dev.trace;
      ghost var writes := ConfigWrites(peer, lane, timing, volt, targetCount);
      ret := ProgramPoint(peer, lane, timing, volt, targetCount);
      if ret != SUCCESS { return; }
      // NO_ADAPT.
      ret := SetRegister(dev, PA_TXHSADAPTTYPE, SelectTx(0), PA_NO_ADAPT, Local);
      if ret != SUCCESS { return; }
      Extended(t0, writes, 4);
      // Power mode change to Fast Mode, which starts the measurement.
      ret := SetRegister(dev, PA_PWRMODE, SelectTx(0), 0x11, Local);
      if ret != SUCCESS { return; }
      Extended(t0, writes, 5);
      ghost var programmed, written := dev.regs, dev.trace;
      WaitForLinkUp();
      assert dev.trace[|t0| + 6..] == dev.trace[|written|..];
      StaysProgrammed(programmed, dev.regs, peer, lane);
      return SUCCESS;
    }

    /** The first four writes: the monitor's own registers. */
    method ProgramPoint(peer: Side, lane: nat, timing: Word32, volt: Word32, targetCount: Word32) returns (ret: int)
      requires Valid() && lane < 2 && timing < 0x80 && volt < 0x80 && targetCount <= EOM_TARGET_TEST_COUNT_MAX
      modifies dev
      ensures old(dev.trace) <= dev.trace
      ensures ret == SUCCESS || ret == ERROR
      ensures ret == SUCCESS ==>
        && dev.trace == old(dev.trace) + ConfigWrites(peer, lane, timing, volt, targetCount)[..4]
        && Lookup(dev.regs, RxRegister(peer, lane, RX_EYEMON_TIMING_STEPS)) == timing
        && Lookup(dev.regs, RxRegister(peer, lane, RX_EYEMON_VOLTAGE_STEPS)) == volt
        && Lookup(dev.regs, RxRegister(peer, lane, RX_EYEMON_TARGET_TEST_COUNT)) == targetCount
      ensures dev.faithful ==> ret == SUCCESS
    {
      ghost var t0 := dev.trace;
      ghost var writes := ConfigWrites(peer, lane, timing, volt, targetCount);
      // Enable the eye monitor.
      ret := SetRegister(dev, RX_EYEMON_ENABLE, SelectRx(lane), 1, peer);
      if ret != SUCCESS { return; }
      Extended(t0, writes, 0);
      // Timing steps.
      ret := SetRegister(dev, RX_EYEMON_TIMING_STEPS, SelectRx(lane), timing, peer);
      if ret != SUCCESS { return; }
      Extended(t0, writes, 1);
      // Voltage steps.
      ret := SetRegister(dev, RX_EYEMON_VOLTAGE_STEPS, SelectRx(lane), volt, peer);
      if ret != SUCCESS { return; }
      Extended(t0, writes, 2);
      // Target test count.
      ret := SetRegister(dev, RX_EYEMON_TARGET_TEST_COUNT, SelectRx(lane), targetCount, peer);
      if ret != SUCCESS { return; }
      Extended(t0, writes, 3);
      return SUCCESS;
    }

    lemma StaysProgrammed(before: map<Register, Word32>, after: map<Register, Word32>, peer: Side, lane: nat)
      requires Unvolatile(before, after)
      ensures forall a | a in {RX_EYEMON_TIMING_STEPS, RX_EYEMON_VOLTAGE_STEPS, RX_EYEMON_TARGET_TEST_COUNT} ::
        Lookup(after, RxRegister(peer, lane, a)) == Lookup(before, RxRegister(peer, lane, a))
    {
    }

    lemma Extended(t0: seq<Event>, writes: seq<Event>, k: nat)
      requires k < |writes|
      ensures t0 + writes[..k] + [writes[k]] == t0 + writes[..k + 1]
      ensures t0 + writes[..0] == t0
    {
    }

    /** Polls the UniPro state until the power mode change is done, or until it cannot be read. */
    method WaitForLinkUp()
      requires Valid()
      modifies dev
      ensures old(dev.trace) <= dev.trace
      ensures forall i | |old(dev.trace)| <= i < |dev.trace| :: !dev.trace[i].isSet
      ensures Unvolatile(old(dev.regs), dev.regs) && dev.stopped == old(dev.stopped)
      ensures LinkWait(dev.trace[|old(dev.trace)|..])
    {
      while true
        invariant old(dev.trace) <= dev.trace
        invariant forall i | |old(dev.trace)| <= i < |dev.trace| ::
          && !dev.trace[i].isSet && dev.trace[i].reg == Register(Local, SelectTx(0), QCOM_DME_VS_UNIPRO_STATE)
          && dev.trace[i].ok && dev.trace[i].value % 8 != UNIPRO_STATE_LINK_UP
        invariant Unvolatile(old(dev.regs), dev.regs) && dev.stopped == old(dev.stopped)
        decreases dev.linkWork
      {
        var ret := GetRegister(dev, QCOM_DME_VS_UNIPRO_STATE, SelectTx(0), Local);
        if ret < 0 {
          break;
        } else if ret % 8 == UNIPRO_STATE_LINK_UP {
          break;
        }
      }
    }

    /** Measures one point and appends its result. Polls until the monitor has stopped with
        conclusive counts. */
    method EomScan(peer: Side, lane: nat, timing: int, volt: int, targetCount: Word32) returns (ret: int)
      requires Valid() && lane < 2 && 0 < targetCount <= EOM_TARGET_TEST_COUNT_MAX
      requires dataCnt < eomResultCount <= er.Length
      modifies this`dataCnt, this`transfers, er, dev, tmpBuf
      ensures old(dev.trace) <= dev.trace
      ensures ret == SUCCESS || ret == ERROR
      ensures er[..old(dataCnt)] == old(er[..dataCnt])
      ensures ret == SUCCESS ==>
        && dataCnt == old(dataCnt) + 1
        && CellOf(er[old(dataCnt)]) == Cell(lane, timing, volt)
        && PointTrace(peer, targetCount, er[old(dataCnt)], dev.trace[|old(dev.trace)|..])
        && CountsFit(dev.trace[|dev.trace| - 3..])
        && Waited(old(dev.trace), dev.trace)
        && (doIo ==> |transfers| - |old(transfers)| == StartReads(dev.trace[|old(dev.trace)|..], peer, lane) > 0)
      ensures ret != SUCCESS ==> dataCnt == old(dataCnt)
      ensures Stressed(old(transfers), peer)
      ensures dev.faithful && !doIo ==>
        && ret == SUCCESS
        && er[old(dataCnt)] == OracleResult(dev.oracle, peer, targetCount, Cell(lane, timing, volt))
    {
      var voltageDirection, voltageSteps, timingDirection, timingSteps;
      if volt < 0 {
        voltageDirection := 1;
        voltageSteps := voltageDirection * 0x40 + (-volt) % 0x40;
      } else {
        voltageDirection := 0;
        voltageSteps := voltageDirection * 0x40 + volt % 0x40;
      }
      if timing < 0 {
        timingDirection := 1;
        timingSteps := timingDirection * 0x40 + (-timing) % 0x40;
      } else {
        timingDirection := 0;
        timingSteps := timingDirection * 0x40 + timing % 0x40;
      }

      assert timingSteps == EncodeSteps(timing) && voltageSteps == EncodeSteps(volt);
      hide *;
      ret := MeasurePoint(peer, lane, timing, volt, timingSteps, voltageSteps, targetCount);
    }

    /** The measurement, with the encoded steps. */
    method MeasurePoint(peer: Side, lane: nat, timing: int, volt: int, timingSteps: Word32, voltageSteps: Word32,
                        targetCount: Word32) returns (ret: int)
      requires Valid() && lane < 2 && 0 < targetCount <= EOM_TARGET_TEST_COUNT_MAX
      requires dataCnt < eomResultCount <= er.Length
      requires timingSteps == EncodeSteps(timing) && voltageSteps == EncodeSteps(volt)
      modifies this`dataCnt, this`transfers, er, dev, tmpBuf
      ensures old(dev.trace) <= dev.trace
      ensures ret == SUCCESS || ret == ERROR
      ensures er[..old(dataCnt)] == old(er[..dataCnt])
      ensures ret == SUCCESS ==>
        && dataCnt == old(dataCnt) + 1
        && CellOf(er[old(dataCnt)]) == Cell(lane, timing, volt)
        && PointTrace(peer, targetCount, er[old(dataCnt)], dev.trace[|old(dev.trace)|..])
        && CountsFit(dev.trace[|dev.trace| - 3..])
        && Waited(old(dev.trace), dev.trace)
        && (doIo ==> |transfers| - |old(transfers)| == StartReads(dev.trace[|old(dev.trace)|..], peer, lane) > 0)
      ensures ret != SUCCESS ==> dataCnt == old(dataCnt)
      ensures Stressed(old(transfers), peer)
      ensures dev.faithful && !doIo ==>
        && ret == SUCCESS
        && er[old(dataCnt)] == OracleResult(dev.oracle, peer, targetCount, Cell(lane, timing, volt))
    {
      hide StressedSince, StartReads, Concludes, CountsFit, ConfigWrites, LinkWait, Waited, PointTrace, UfsDevice.Settled;
      NoStress(doIo, transfers, peer);
      ghost var t0 := dev.trace;
      ret := ConfigEom(peer, lane, timingSteps, voltageSteps, targetCount);
      if ret != SUCCESS {
        return;
      }
      ghost var t1 := dev.trace;
      var poll := AwaitResult(peer, lane, targetCount);
      PolledSince(t0, t1, dev.trace, peer, lane, timingSteps, voltageSteps, targetCount);
      if poll == Failed {
        return ERROR;
      }
      PointTraceIntro(peer, targetCount, EomResult(lane, timing, volt, poll.errors), t0, dev.trace);
      ret := Record(EomResult(lane, timing, volt, poll.errors));
    }

    /** Logs one result. */
    method Record(r: EomResult) returns (ret: int)
      requires dataCnt < eomResultCount <= er.Length
      modifies this`dataCnt, er
      ensures ret == SUCCESS && dataCnt == old(dataCnt) + 1
      ensures er[..dataCnt] == old(er[..dataCnt]) + [r]
    {
      er[dataCnt] := r;
      dataCnt := dataCnt + 1;
      if dataCnt > eomResultCount {
        return ERROR;
      }
      return SUCCESS;
    }

    /** Polls until the counts are conclusive or a command fails; with I/O, every round starts
        with a transfer. */
    method AwaitResult(peer: Side, lane: nat, targetCount: Word32) returns (poll: Poll)
      requires Valid() && lane < 2
      requires Lookup(dev.regs, RxRegister(peer, lane, RX_EYEMON_TARGET_TEST_COUNT)) == targetCount
      requires dev.stopped == {}
      modifies dev, tmpBuf, this`transfers
      ensures poll != Again
      ensures Stressed(old(transfers), peer)
      ensures old(dev.trace) <= dev.trace
      ensures doIo && poll.Conclusive? ==>
        |transfers| - |old(transfers)| == StartReads(dev.trace[|old(dev.trace)|..], peer, lane) > 0
      ensures forall i | |old(dev.trace)| <= i < |dev.trace| :: !dev.trace[i].isSet
      ensures poll.Conclusive? ==>
        && |dev.trace| >= |old(dev.trace)| + 3
        && Concludes(peer, targetCount, lane, poll.errors, dev.trace[|dev.trace| - 3..])
        && CountsFit(dev.trace[|dev.trace| - 3..])
      ensures dev.faithful && !doIo ==>
        poll == Conclusive(old(dev.OracleFor(RxRegister(peer, lane, RX_EYEMON_START))).errors)
    {
      hide StressedSince, StartReads, Concludes, CountsFit;
      poll := Again;
      EmptyReads(dev.trace, peer, lane);
      NoStress(doIo, transfers, peer);
      while poll == Again
        invariant old(dev.trace) <= dev.trace && Stressed(old(transfers), peer)
        invariant doIo && poll != Failed ==>
          |transfers| - |old(transfers)| == StartReads(dev.trace[|old(dev.trace)|..], peer, lane)
        invariant poll.Conclusive? ==> StartReads(dev.trace[|old(dev.trace)|..], peer, lane) > 0
        invariant forall i | |old(dev.trace)| <= i < |dev.trace| :: !dev.trace[i].isSet
        invariant Unvolatile(old(dev.regs), dev.regs)
        invariant poll == Again ==> dev.Settled(RxRegister(peer, lane, RX_EYEMON_START))
        invariant poll.Conclusive? ==>
          && |dev.trace| >= |old(dev.trace)| + 3
          && Concludes(peer, targetCount, lane, poll.errors, dev.trace[|dev.trace| - 3..])
          && CountsFit(dev.trace[|dev.trace| - 3..])
        invariant dev.faithful && !doIo ==>
          && poll != Failed
          && (poll.Conclusive? ==> poll.errors == old(dev.OracleFor(RxRegister(peer, lane, RX_EYEMON_START))).errors)
        decreases poll == Again, dev.eomWork
      {
        ghost var before, sent := dev.trace, transfers;
        poll := PollRound(peer, lane, targetCount);
        StartReadsSince(old(dev.trace), before, dev.trace, peer, lane);
        StressAdds(doIo, old(transfers), sent, transfers, peer);
      }
    }

    /** One round: a transfer if there is file I/O, then the poll. */
    method PollRound(peer: Side, lane: nat, targetCount: Word32) returns (poll: Poll)
      requires Valid() && lane < 2
      requires Lookup(dev.regs, RxRegister(peer, lane, RX_EYEMON_TARGET_TEST_COUNT)) == targetCount
      requires dev.Settled(RxRegister(peer, lane, RX_EYEMON_START))
      modifies dev, tmpBuf, this`transfers
      ensures old(dev.trace) <= dev.trace && Stressed(old(transfers), peer)
      ensures doIo && poll != Failed ==> |transfers| == |old(transfers)| + 1
      ensures poll != Failed ==> StartReads(dev.trace[|old(dev.trace)|..], peer, lane) == 1
      ensures forall i | |old(dev.trace)| <= i < |dev.trace| :: !dev.trace[i].isSet
      ensures Unvolatile(old(dev.regs), dev.regs)
      ensures poll == Again ==> dev.eomWork < old(dev.eomWork) && dev.Settled(RxRegister(peer, lane, RX_EYEMON_START))
      ensures poll.Conclusive? ==>
        && |dev.trace| == |old(dev.trace)| + 3
        && Concludes(peer, targetCount, lane, poll.errors, dev.trace[|dev.trace| - 3..])
        && CountsFit(dev.trace[|dev.trace| - 3..])
      ensures dev.faithful && !doIo ==>
        && poll != Failed
        && (poll.Conclusive? ==> poll.errors == old(dev.OracleFor(RxRegister(peer, lane, RX_EYEMON_START))).errors)
    {
      hide StressedSince, StartReads, Concludes, CountsFit;
      NoStress(doIo, transfers, peer);
      if doIo {
        var ok := StressLink(peer);
        if !ok {
          return Failed;
        }
      }
      ghost var before := dev.trace;
      poll := PollResult(peer, lane, targetCount);
      RoundReadsStart(before, dev.trace, peer, lane);
    }

    lemma EmptyReads(tr: seq<Event>, side: Side, lane: nat)
      ensures StartReads(tr[|tr|..], side, lane) == 0
    {
    }

    /** One round of the polling loop: Start, then both counts. */
    method PollResult(peer: Side, lane: nat, targetCount: Word32) returns (poll: Poll)
      requires Valid() && lane < 2
      requires Lookup(dev.regs, RxRegister(peer, lane, RX_EYEMON_TARGET_TEST_COUNT)) == targetCount
      requires dev.Settled(RxRegister(peer, lane, RX_EYEMON_START))
      modifies dev
      ensures old(dev.trace) <= dev.trace
      ensures forall i | |old(dev.trace)| <= i < |dev.trace| :: !dev.trace[i].isSet
      ensures Unvolatile(old(dev.regs), dev.regs)
      ensures |dev.trace| > |old(dev.trace)|
      ensures forall i | |old(dev.trace)| <= i < |dev.trace| ::
        dev.trace[i].reg == RxRegister(peer, lane, RX_EYEMON_START) <==> i == |old(dev.trace)|
      ensures poll == Failed <==> exists i ::
        |old(dev.trace)| <= i < |dev.trace| && (!dev.trace[i].ok || dev.trace[i].value >= 0x8000_0000)
      ensures poll == Again ==>
        if dev.trace[|old(dev.trace)|].value % 2 == 1 then |dev.trace| == |old(dev.trace)| + 1
        else
          && |dev.trace| == |old(dev.trace)| + 3
          && !Concluded(Counters(dev.trace[|dev.trace| - 2].value, dev.trace[|dev.trace| - 1].value), targetCount)
      ensures poll == Again ==> dev.eomWork < old(dev.eomWork) && dev.Settled(RxRegister(peer, lane, RX_EYEMON_START))
      ensures poll.Conclusive? ==>
        && |dev.trace| == |old(dev.trace)| + 3
        && Concludes(peer, targetCount, lane, poll.errors, dev.trace[|dev.trace| - 3..])
        && CountsFit(dev.trace[|dev.trace| - 3..])
      ensures dev.faithful ==>
        && poll != Failed
        && (poll.Conclusive? ==> poll.errors == old(dev.OracleFor(RxRegister(peer, lane, RX_EYEMON_START))).errors)
    {
      var start := GetRegister(dev, RX_EYEMON_START, SelectRx(lane), peer);
      if start < 0 {
        return Failed;
      }
      // Not stopped yet.
      if start % 2 == 1 {
        return Again;
      }
      var tested := GetRegister(dev, RX_EYEMON_TESTED_COUNT, SelectRx(lane), peer);
      if tested < 0 {
        return Failed;
      }
      var errors := GetRegister(dev, RX_EYEMON_ERROR_COUNT, SelectRx(lane), peer);
      if errors < 0 {
        return Failed;
      }
      if tested >= targetCount || errors >= EOM_PHY_ERROR_COUNT_THRESHOLD {
        return Conclusive(errors);
      }
      // Running again, or not started yet.
      return Again;
    }

    /** Writes a fresh pattern to the temporary file and, for the local receiver, reads it back over
        the buffer. Either transfer may fail. */
    method StressLink(peer: Side) returns (ok: bool)
      requires Valid() && doIo
      modifies tmpBuf, this`transfers
      ensures Stressed(old(transfers), peer)
      ensures ok ==> |transfers| == |old(transfers)| + 1
      ensures ok && peer == Peer ==> tmpBuf[..] == transfers[|transfers| - 1].data
    {
      var rand: int := *;
      PatternGenerator.PopulateDataPattern(tmpBuf, rand % 0x8000_0000);
      assert PatternOf(rand % 0x8000_0000, tmpBuf[..]);
      ghost var t := Transfer(tmpBuf[..], peer == Local);
      assert Patterned(t);
      var sent: int := *;
      if sent < 0 {
        return false;
      }
      if peer == Local {
        var got := Pread();
        if got < 0 {
          return false;
        }
      }
      transfers := transfers + [t];
      return true;
    }

    /** pread of the temporary file: the buffer may hold anything afterwards. */
    method Pread() returns (got: int)
      modifies tmpBuf
    {
      got := *;
      var contents: int -> int := *;
      forall i | 0 <= i < tmpBuf.Length {
        tmpBuf[i] := contents(i) % 0x1_0000_0000;
      }
    }

    // ----- The sweep -----

    predicate ValidRange()
      reads this
    {
      timingLeft <= timingRight && voltageLow <= voltageHigh
    }

    function CurrentRange(): Range
      reads this
    {
      Range(timingLeft, timingRight, voltageLow, voltageHigh)
    }

    function CurrentLimits(): Limits
      reads this
    {
      Limits(timingMaxSteps, timingMaxOffset, voltageMaxSteps, voltageMaxOffset)
    }

    function SweepWindow(): Window
      requires ValidRange()
      reads this
    {
      WindowOf(CurrentRange())
    }

    /** The commands since t0 are those of `steps`, and the array holds their results. */
    ghost predicate Swept(steps: seq<Step>, t0: seq<Event>)
      reads this, er, dev
    {
      && t0 <= dev.trace
      && RunTrace(localPeer, targetTestCount, steps, dev.trace[|t0|..])
      && Recorded(steps)
    }

    ghost predicate Recorded(steps: seq<Step>)
      reads this, er
    {
      dataCnt <= er.Length && er[..dataCnt] == Results(steps)
    }

    /** With file I/O every point recorded since then was measured under at least one transfer. */
    ghost predicate MoreStress(before: seq<Transfer>, count: nat)
      reads this
    {
      && Stressed(before, localPeer)
      && (doIo ==> |transfers| - |before| >= dataCnt - count)
    }

    /** Everything in the array was measured since t0. */
    ghost predicate AllMeasured(t0: seq<Event>)
      reads this, er, dev
    {
      && t0 <= dev.trace && dataCnt <= er.Length
      && forall r | r in er[..dataCnt] :: Measured(localPeer, targetTestCount, r, dev.trace[|t0|..])
    }

    /** On a faithful device a result is what the oracle says. */
    ghost predicate FromOracle(r: EomResult) {
      dev.faithful && !doIo ==> r == OracleResult(dev.oracle, localPeer, targetTestCount, CellOf(r))
    }

    ghost predicate AllFromOracle(steps: seq<Step>) {
      forall i | 0 <= i < |steps| && steps[i].Scanned? :: FromOracle(steps[i].r)
    }

    /** One iteration of the innermost loop. */
    method ScanNext(l: nat, t: int, v: int, ghost steps: seq<Step>, ghost t0: seq<Event>)
      returns (ret: int, ghost r: EomResult)
      requires Valid() && l < 2 && dataCnt < eomResultCount == er.Length && Swept(steps, t0)
      modifies this`dataCnt, this`transfers, er, dev, tmpBuf
      ensures old(dev.trace) <= dev.trace
      ensures ret == SUCCESS ==>
        && Swept(steps + [Scanned(r)], t0) && Actions(steps + [Scanned(r)]) == Actions(steps) + [Scan(Cell(l, t, v))]
        && FromOracle(r)
      ensures ret != SUCCESS ==> Recorded(steps)
      ensures dataCnt == old(dataCnt) + (if ret == SUCCESS then 1 else 0)
      ensures MoreStress(old(transfers), old(dataCnt))
      ensures dev.faithful && !doIo ==> ret == SUCCESS
    {
      hide StressedSince, StartReads, Waited, CountsFit, PointTrace, RunTrace, Results, Actions;
      NoStress(doIo, transfers, localPeer);
      ret := EomScan(localPeer, l, t, v, targetTestCount);
      StressAdds(doIo, old(transfers), old(transfers), transfers, localPeer);
      r := EomResult(l, t, v, 0);
      if ret == SUCCESS {
        r := er[dataCnt - 1];
        RunGrows(localPeer, targetTestCount, steps, t0, old(dev.trace), Scanned(r), dev.trace);
        assert er[..dataCnt] == old(er[..dataCnt]) + [r];
      }
    }

    method DisableLane(l: nat, ghost steps: seq<Step>, ghost t0: seq<Event>) returns (ret: int)
      requires Valid() && l < 2 && Swept(steps, t0)
      modifies dev
      ensures old(dev.trace) <= dev.trace
      ensures ret == SUCCESS ==>
        Swept(steps + [Disabled(l)], t0) && Actions(steps + [Disabled(l)]) == Actions(steps) + [Disable(l)]
      ensures dev.faithful ==> ret == SUCCESS
    {
      ret := SetRegister(dev, RX_EYEMON_ENABLE, SelectRx(l), 0, localPeer);
      if ret == SUCCESS {
        RunGrows(localPeer, targetTestCount, steps, t0, old(dev.trace), Disabled(l), dev.trace);
      }
    }

    /** What an interrupted sweep leaves: a prefix of the grid, all of it measured. */
    ghost predicate Interrupted(t0: seq<Event>)
      requires ValidRange()
      reads this, er, dev
    {
      AllMeasured(t0) && CellSeq(er[..dataCnt]) <= AllCells(lane, numLanes, SweepWindow())
    }

    /** The sweep, interrupted or not, has come to the given lane, column and cell. */
    ghost predicate At(steps: seq<Step>, t0: seq<Event>, l: int, t: int, v: int)
      requires ValidRange()
      reads this, er, dev
    {
      && l >= lane && t >= timingLeft && v >= voltageLow
      && Swept(steps, t0) && AllFromOracle(steps)
      && Actions(steps) == PlanSoFar(lane, SweepWindow(), l - lane, t - timingLeft, v - voltageLow)
    }

    ghost predicate Ready()
      reads this, er
    {
      && Valid() && ValidRange()
      && eomResultCount == er.Length == |AllCells(lane, numLanes, SweepWindow())|
    }

    /** One iteration of the innermost loop, as a step of the sweep. */
    method SweepCell(l: nat, t: int, v: int, ghost steps: seq<Step>, ghost t0: seq<Event>)
      returns (ret: int, ghost next: seq<Step>)
      requires Ready() && l < lane + numLanes && t <= timingRight && v <= voltageHigh && At(steps, t0, l, t, v)
      modifies this`dataCnt, this`transfers, er, dev, tmpBuf
      ensures old(dev.trace) <= dev.trace
      ensures ret == SUCCESS ==> At(next, t0, l, t, v + 1)
      ensures MoreStress(old(transfers), old(dataCnt))
      ensures ret != SUCCESS ==> Interrupted(t0)
      ensures dev.faithful && !doIo ==> ret == SUCCESS
    {
      hide RunTrace, Results, Actions, PlanSoFar, AllCells, Measured, CellSeq, StressedSince;
      RoomForNext(steps, lane, numLanes, SweepWindow(), l - lane, t - timingLeft, v - voltageLow);
      ghost var r;
      next := steps;
      ret, r := ScanNext(l, t, v, steps, t0);
      if ret == SUCCESS {
        next := steps + [Scanned(r)];
        assert AllFromOracle(next);
      } else {
        StillMeasured(localPeer, targetTestCount, steps, t0, old(dev.trace), dev.trace);
      }
    }

    /** The end of a lane, as a step of the sweep. */
    method FinishLane(l: nat, ghost steps: seq<Step>, ghost t0: seq<Event>)
      returns (ret: int, ghost next: seq<Step>)
      requires Ready() && l < lane + numLanes && At(steps, t0, l, timingRight + 1, voltageLow)
      modifies dev
      ensures old(dev.trace) <= dev.trace
      ensures ret == SUCCESS ==> At(next, t0, l + 1, timingLeft, voltageLow)
      ensures ret != SUCCESS ==> Interrupted(t0)
      ensures dev.faithful ==> ret == SUCCESS
    {
      hide RunTrace, Results, Actions, PlanSoFar, AllCells, Measured, CellSeq;
      LaneDone(steps, lane, numLanes, SweepWindow(), l - lane);
      next := steps + [Disabled(l)];
      ret := DisableLane(l, steps, t0);
      if ret != SUCCESS {
        StillMeasured(localPeer, targetTestCount, steps, t0, old(dev.trace), dev.trace);
      }
    }

    /** The innermost loop: all voltages of one timing. */
    method SweepColumn(l: nat, t: int, ghost steps: seq<Step>, ghost t0: seq<Event>)
      returns (ret: int, ghost next: seq<Step>)
      requires Ready() && l < lane + numLanes && t <= timingRight && At(steps, t0, l, t, voltageLow)
      modifies this`dataCnt, this`transfers, er, dev, tmpBuf
      ensures old(dev.trace) <= dev.trace
      ensures ret == SUCCESS ==> At(next, t0, l, t + 1, voltageLow)
      ensures MoreStress(old(transfers), old(dataCnt))
      ensures ret != SUCCESS ==> Interrupted(t0)
      ensures dev.faithful && !doIo ==> ret == SUCCESS
    {
      hide RunTrace, Results, Actions, PlanSoFar, AllCells, Measured, CellSeq, StressedSince;
      NoStress(doIo, transfers, localPeer);
      next := steps;
      for v := voltageLow to voltageHigh + 1
        invariant old(dev.trace) <= dev.trace && At(next, t0, l, t, v)
        invariant MoreStress(old(transfers), old(dataCnt))
      {
        ghost var sent := transfers;
        ret, next := SweepCell(l, t, v, next, t0);
        StressAdds(doIo, old(transfers), sent, transfers, localPeer);
        if ret != SUCCESS {
          return;
        }
      }
      PlanNextColumn(lane, SweepWindow(), l - lane, t - timingLeft);
      ret := SUCCESS;
    }

    /** All timings of one lane, then its disable. */
    method SweepLane(l: nat, ghost steps: seq<Step>, ghost t0: seq<Event>)
      returns (ret: int, ghost next: seq<Step>)
      requires Ready() && l < lane + numLanes && At(steps, t0, l, timingLeft, voltageLow)
      modifies this`dataCnt, this`transfers, er, dev, tmpBuf
      ensures old(dev.trace) <= dev.trace
      ensures ret == SUCCESS ==> At(next, t0, l + 1, timingLeft, voltageLow)
      ensures MoreStress(old(transfers), old(dataCnt))
      ensures ret != SUCCESS ==> Interrupted(t0)
      ensures dev.faithful && !doIo ==> ret == SUCCESS
    {
      hide RunTrace, Results, Actions, PlanSoFar, AllCells, Measured, CellSeq, StressedSince;
      NoStress(doIo, transfers, localPeer);
      next := steps;
      for t := timingLeft to timingRight + 1
        invariant old(dev.trace) <= dev.trace && At(next, t0, l, t, voltageLow)
        invariant MoreStress(old(transfers), old(dataCnt))
      {
        ghost var sent := transfers;
        ret, next := SweepColumn(l, t, next, t0);
        StressAdds(doIo, old(transfers), sent, transfers, localPeer);
        if ret != SUCCESS {
          return;
        }
      }
      ret, next := FinishLane(l, next, t0);
    }

    /** The main loop over the lanes. Whatever happens, the array holds a prefix of the sweep and
        every entry was measured; a successful run fills the array. */
    method Sweep() returns (ret: int)
      requires Ready() && dataCnt == 0
      modifies this`dataCnt, this`transfers, er, dev, tmpBuf
      ensures old(dev.trace) <= dev.trace
      ensures Interrupted(old(dev.trace)) && MoreStress(old(transfers), 0)
      ensures ret == SUCCESS ==>
        && dataCnt == eomResultCount
        && CompleteRun(localPeer, targetTestCount, lane, numLanes, SweepWindow(), er[..dataCnt], dev.trace[|old(dev.trace)|..])
      ensures dev.faithful && !doIo ==>
        ret == SUCCESS && RecordedOracle()
    {
      hide RunTrace, PlanSoFar, AllCells, Measured, CellSeq, StressedSince;
      ghost var t0 := dev.trace;
      ghost var steps: seq<Step> := [];
      NoStress(doIo, transfers, localPeer);
      RunTraceStart(localPeer, targetTestCount);
      assert dev.trace[|t0|..] == [];
      PlanNextLane(lane, SweepWindow(), 0);
      for l := lane to lane + numLanes
        invariant old(dev.trace) <= dev.trace && At(steps, t0, l, timingLeft, voltageLow)
        invariant MoreStress(old(transfers), 0)
      {
        ghost var sent := transfers;
        ret, steps := SweepLane(l, steps, t0);
        StressAdds(doIo, old(transfers), sent, transfers, localPeer);
        if ret != SUCCESS {
          return;
        }
      }
      ret := SUCCESS;
      PlanNextLane(lane, SweepWindow(), numLanes);
      SweepDone(steps, t0, SweepWindow());
    }

    lemma SweepDone(steps: seq<Step>, t0: seq<Event>, w: Window)
      requires Swept(steps, t0) && AllFromOracle(steps) && Actions(steps) == SweepPlan(lane, numLanes, w)
      ensures CellSeq(er[..dataCnt]) == AllCells(lane, numLanes, w) && dataCnt == |AllCells(lane, numLanes, w)|
      ensures AllMeasured(t0)
      ensures CompleteRun(localPeer, targetTestCount, lane, numLanes, w, er[..dataCnt], dev.trace[|t0|..])
      ensures forall i | 0 <= i < dataCnt :: FromOracle(er[i]) && CellOf(er[i]) == AllCells(lane, numLanes, w)[i]
    {
      CompleteRunRecordsGrid(localPeer, targetTestCount, lane, numLanes, w, er[..dataCnt], dev.trace[|t0|..]);
      forall i | 0 <= i < dataCnt
        ensures FromOracle(er[i]) && CellOf(er[i]) == AllCells(lane, numLanes, w)[i]
      {
        assert er[i] == er[..dataCnt][i] && CellOf(er[..dataCnt][i]) == CellSeq(er[..dataCnt])[i];
        ResultFromStep(steps, er[i]);
        var k :| 0 <= k < |steps| && steps[k] == Scanned(er[i]);
      }
    }

    // ----- The whole program -----

    /** Fills in the limits that were not given and checks all four against the hardware. */
    method TimingVoltageSanityCheck() returns (ret: int)
      modifies this`voltageLow, this`voltageHigh, this`timingLeft, this`timingRight
      ensures CurrentRange() == Filled(old(CurrentRange()), CurrentLimits())
      ensures ret == SUCCESS || ret == ERROR
      ensures ret == SUCCESS <==> Within(CurrentRange(), CurrentLimits())
      ensures ret == SUCCESS <==> Sweepable(old(CurrentRange()), CurrentLimits())
    {
      SanityExactly(CurrentRange(), CurrentLimits());
      hide Sweepable;
      if voltageLow == EOM_TIMING_VOLTAGE_INIT {
        voltageLow := -voltageMaxSteps;
      }
      if voltageHigh == EOM_TIMING_VOLTAGE_INIT {
        voltageHigh := voltageMaxSteps;
      }
      if timingLeft == EOM_TIMING_VOLTAGE_INIT {
        timingLeft := -timingMaxSteps;
      }
      if timingRight == EOM_TIMING_VOLTAGE_INIT {
        timingRight := timingMaxSteps;
      }
      if voltageLow > voltageMaxSteps || voltageLow < -voltageMaxSteps
         || voltageHigh > voltageMaxSteps || voltageHigh < -voltageMaxSteps {
        return ERROR;
      }
      if timingLeft > timingMaxSteps || timingLeft < -timingMaxSteps
         || timingRight > timingMaxSteps || timingRight < -timingMaxSteps {
        return ERROR;
      }
      if voltageLow > voltageHigh {
        return ERROR;
      }
      if timingLeft > timingRight {
        return ERROR;
      }
      return SUCCESS;
    }

    /** The header of the report, from the globals and the device's names. */
    function CurrentHeader(names: DeviceNames): Header
      reads this
    {
      Header(localPeer, names, gear, rate, timingMaxSteps, timingMaxOffset, voltageMaxSteps, voltageMaxOffset)
    }

    method PrintHeader(names: DeviceNames) returns (text: string)
      ensures text == Concat(HeaderLines(CurrentHeader(names)))
    {
      ghost var h := CurrentHeader(names);
      hide Concat, SideLine, InquiryLine, GearLine, TimingLine, VoltageLine;
      text := "";
      EmptyText();
      assert HeaderLines(h)[..0] == [];
      text := text + SideLine(localPeer);
      HeaderGrows(h, 0);
      text := text + InquiryLine(names);
      HeaderGrows(h, 1);
      text := text + GearLine(gear, rate);
      HeaderGrows(h, 2);
      text := text + "EOM Capabilities:\n";
      HeaderGrows(h, 3);
      text := text + TimingLine(CurrentHeader(names));
      HeaderGrows(h, 4);
      text := text + VoltageLine(CurrentHeader(names));
      HeaderGrows(h, 5);
      text := text + "\n";
      HeaderGrows(h, 6);
      assert HeaderLines(h)[..7] == HeaderLines(h);
    }

    lemma EmptyText()
      ensures Concat([]) == ""
    {
    }

    /** Prints the report. `names` is what reading the descriptors gave, None if that failed. */
    method GenerateEomReport(names: Option<DeviceNames>, fileOpens: bool) returns (ret: int, text: string)
      requires dataCnt <= er.Length
      ensures ret == SUCCESS <==> names.Some? && fileOpens
      ensures ret == SUCCESS ==> text == ReportText(CurrentHeader(names.value), er[..dataCnt])
    {
      text := "";
      if names == None {
        return ERROR, text;
      }
      if !fileOpens {
        return ERROR, text;
      }
      text := PrintHeader(names.value);
      assert er[..0] == [];
      assert Lines(CurrentHeader(names.value), []) == HeaderLines(CurrentHeader(names.value));
      for i := 0 to dataCnt
        invariant text == ReportText(CurrentHeader(names.value), er[..i])
      {
        ReportGrows(CurrentHeader(names.value), er[..i], er[i]);
        assert er[..i + 1] == er[..i] + [er[i]];
        text := text + ResultLine(er[i]);
      }
      return SUCCESS, text;
    }

    /** Checks that the monitor exists and reads gear and rate. */
    method ReadLink() returns (ret: int)
      requires Valid()
      modifies dev, this`gear, this`rate
      ensures Unvolatile(old(dev.regs), dev.regs)
      ensures ret == SUCCESS || ret == ERROR
      ensures ret == SUCCESS ==>
        && LinkReady(old(dev.regs), localPeer, lane)
        && gear == StaticValue(old(dev.regs), RxRegister(Local, 0, PA_RXGEAR))
        && rate == StaticValue(old(dev.regs), RxRegister(Local, 0, RX_HSRATE_SERIES))
      ensures dev.faithful ==> (ret == SUCCESS <==> LinkReady(old(dev.regs), localPeer, lane))
    {
      var eomCap := ReadStatic(dev, RX_EYEMON_CAPABILITY, SelectRx(lane), localPeer);
      if eomCap < 0 {
        return ERROR;
      } else if eomCap % 2 == 0 {
        return ERROR;
      }
      var curGear := ReadStatic(dev, PA_RXGEAR, SelectRx(0), Local);
      if curGear < 0 {
        return ERROR;
      }
      if curGear < EOM_SUPPORTED_MIN_GEAR {
        return ERROR;
      }
      gear := curGear;
      var curRate := ReadStatic(dev, RX_HSRATE_SERIES, SelectRx(0), Local);
      if curRate < 0 {
        return ERROR;
      }
      rate := curRate;
      return SUCCESS;
    }

    /** Reads how far and in what steps the monitor can move. */
    method ReadLimits() returns (ret: int)
      requires Valid()
      modifies dev, this`timingMaxSteps, this`timingMaxOffset, this`voltageMaxSteps, this`voltageMaxOffset
      ensures ret == SUCCESS || ret == ERROR
      ensures ret == SUCCESS ==>
        CurrentLimits() == LimitsOf(old(dev.regs), localPeer, lane) && Readable(CurrentLimits())
      ensures dev.faithful ==> (ret == SUCCESS <==> Readable(LimitsOf(old(dev.regs), localPeer, lane)))
    {
      timingMaxSteps := ReadStatic(dev, RX_EYEMON_TIMING_MAX_STEPS_CAPABILITY, SelectRx(lane), localPeer);
      if timingMaxSteps < 0 {
        return ERROR;
      }
      timingMaxOffset := ReadStatic(dev, RX_EYEMON_TIMING_MAX_OFFSET_CAPABILITY, SelectRx(lane), localPeer);
      if timingMaxOffset < 0 {
        return ERROR;
      }
      voltageMaxSteps := ReadStatic(dev, RX_EYEMON_VOLTAGE_MAX_STEPS_CAPABILITY, SelectRx(lane), localPeer);
      if voltageMaxSteps < 0 {
        return ERROR;
      }
      voltageMaxOffset := ReadStatic(dev, RX_EYEMON_VOLTAGE_MAX_OFFSET_CAPABILITY, SelectRx(lane), localPeer);
      if voltageMaxOffset < 0 {
        return ERROR;
      }
      return SUCCESS;
    }

    /** Makes room for one result a cell; `memory` says whether there is any. */
    method Allocate(memory: bool) returns (ok: bool)
      requires Valid() && ValidRange()
      modifies this`eomResultCount, this`er
      ensures ok == memory
      ensures ok ==> Ready() && fresh(er)
    {
      eomResultCount := (timingRight - timingLeft + 1) * (voltageHigh - voltageLow + 1) * numLanes;
      SweepSize(timingRight - timingLeft + 1, voltageHigh - voltageLow + 1);
      AllCellsSize(lane, numLanes, SweepWindow());
      if !memory {
        return false;
      }
      er := new EomResult[eomResultCount](_ => EomResult(0, 0, 0, 0));
      return true;
    }

    /** The sweep is recorded in `er`, and the commands since `start` are those of the sweep. */
    ghost predicate Finished(start: nat)
      reads this, er, dev
    {
      && ValidRange() && start <= |dev.trace| && dataCnt <= er.Length
      && CompleteRun(localPeer, targetTestCount, lane, numLanes, SweepWindow(), er[..dataCnt], dev.trace[start..])
    }

    /** Link, limits and range are those of a device that held these registers, and the range is
        the one that was asked for. */
    predicate AsOffered(regs: map<Register, Word32>, asked: Range)
      reads this
    {
      && LinkReady(regs, localPeer, lane)
      && gear == StaticValue(regs, RxRegister(Local, 0, PA_RXGEAR))
      && rate == StaticValue(regs, RxRegister(Local, 0, RX_HSRATE_SERIES))
      && CurrentLimits() == LimitsOf(regs, localPeer, lane) && Readable(CurrentLimits())
      && CurrentRange() == Filled(asked, CurrentLimits()) && Within(CurrentRange(), CurrentLimits())
    }

    /** What comes before the sweep: the link, the limits and the memory. */
    method Prepare(memory: bool) returns (ret: int)
      requires Valid() && dataCnt == 0
      modifies this, dev
      ensures dataCnt == 0 && transfers == old(transfers) && (ret == SUCCESS || ret == ERROR)
      ensures ret == SUCCESS ==> Ready() && fresh(er) && AsOffered(old(dev.regs), old(CurrentRange()))
      ensures dev.faithful ==>
        (ret == SUCCESS <==> memory && CanSweep(old(dev.regs), localPeer, lane, old(CurrentRange())))
    {
      hide StaticValue, RxRegister, AllCells, Sweepable;
      ret := ReadLink();
      if ret != SUCCESS {
        return;
      }
      SameOffer(old(dev.regs), dev.regs);
      ret := ReadLimits();
      if ret != SUCCESS {
        return;
      }
      ret := TimingVoltageSanityCheck();
      if ret != SUCCESS {
        return;
      }
      var ok := Allocate(memory);
      if !ok {
        ret := ERROR;
      }
    }

    /** Reading leaves what the device offers as it is. */
    lemma SameOffer(before: map<Register, Word32>, after: map<Register, Word32>)
      requires Unvolatile(before, after)
      ensures LimitsOf(after, localPeer, lane) == LimitsOf(before, localPeer, lane)
    {
    }

    /** main() after the options are parsed: a report comes out only if the whole sweep succeeded,
        and then it prints exactly what was measured. A device that does not fail gives a report
        exactly when it offers the sweep and memory, names and file are there. */
    method Run(names: Option<DeviceNames>, memory: bool, fileOpens: bool)
      returns (ret: int, report: string, ghost start: nat)
      requires Valid() && dataCnt == 0
      modifies this, dev, tmpBuf
      ensures ret == SUCCESS ==>
        && AsOffered(old(dev.regs), old(CurrentRange()))
        && Finished(start)
        && names.Some? && report == ReportText(HeaderOf(old(dev.regs), localPeer, lane, names.value), er[..dataCnt])
        && CurrentHeader(names.value) == HeaderOf(old(dev.regs), localPeer, lane, names.value)
        && (doIo ==> |transfers| >= |old(transfers)| + dataCnt)
      ensures dev.faithful && !doIo ==>
        (ret == SUCCESS <==>
          memory && names.Some? && fileOpens && CanSweep(old(dev.regs), localPeer, lane, old(CurrentRange())))
      ensures dev.faithful && !doIo && ret == SUCCESS ==> ValidRange() && RecordedOracle()
    {
      hide CompleteRun, ReportText, AllCells, Measured, CellSeq, LinkReady, Readable, Filled, Within, StressedSince;
      report, start := "", 0;
      ret := Prepare(memory);
      if ret != SUCCESS {
        return;
      }
      start := |dev.trace|;
      ret := Sweep();
      if ret != SUCCESS {
        return;
      }
      ret, report := GenerateEomReport(names, fileOpens);
    }

    /** The array holds what the oracle says about every cell of the sweep. */
    ghost predicate RecordedOracle()
      requires ValidRange()
      reads this, er
    {
      && dataCnt <= er.Length
      && RecordedFrom(dev.oracle, localPeer, targetTestCount, AllCells(lane, numLanes, SweepWindow()), er[..dataCnt])
    }

    lemma SweepSize(timings: nat, volts: nat)
      ensures timings * volts * numLanes == numLanes * (timings * volts)
    {
    }
  }
}
