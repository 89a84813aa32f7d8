/** The Python program `ufs-eom.py`: the same sweep, driven through the `lsufs` command line. */
module UfsEomPy {
  import opened Words
  import opened Wrappers
  import opened Uic
  import opened Grid
  import opened EomTrace
  import opened PyTrace
  import opened Decimal
  import opened Text
  import opened Report
  import UfsEom

  datatype Direction = TX | RX

  /** Direction bit, then the magnitude. */
  function CalculateConfig(value: int, directionBit: nat, stepMask: nat): int {
    var direction := if value < 0 then 1 else 0;
    direction * Shift(directionBit) + (if value < 0 then -value else value) % (stepMask + 1)
  }

  function Shift(bits: nat): nat {
    if bits == 0 then 1 else 2 * Shift(bits - 1)
  }

  /** Both programs write the same step codes. */
  lemma SameEncoding(value: int)
    ensures CalculateConfig(value, 6, 0x3F) == EncodeSteps(value)
  {
  }

  /** (one past the last lane, first lane) */
  function DetermineLanes(lane: Option<nat>): (nat, nat) {
    if lane == None then (2, 0) else (lane.value + 1, lane.value)
  }

  /** (voltage limit or value, whether it is a single value); None leaves the program. */
  function DetermineVoltage(voltage: Option<int>, voltageMaxSteps: int): Option<(int, bool)> {
    if voltage == None then Some((voltageMaxSteps, false))
    else if voltage.value > voltageMaxSteps || voltage.value < -voltageMaxSteps then None
    else Some((voltage.value, true))
  }

  /** `lsufs uic -s`: without a lane it means lane 0. The outcome is not looked at. */
  method LsufsSet(dev: UfsDevice, lane: Option<nat>, index: Word16, value: Word32, direction: Direction, side: Side)
    returns (ghost e: Event)
    requires dev.Valid() && (lane.Some? ==> lane.value < 0x100) && ToInt(value) != ERROR
    modifies dev
    ensures dev.trace == old(dev.trace) + [e]
    ensures
      var l := if lane.Some? then lane.value else 0;
      var r := Register(side, if direction == RX then SelectRx(l) else SelectTx(l), index);
      && Asked(e) == Wrote(r, value)
      && (dev.regs == old(dev.regs)[r := value] || (!e.ok && dev.regs == old(dev.regs)))
      && dev.Restarted(e) && (dev.faithful ==> e.ok)
  {
    var l := if lane.Some? then lane.value else 0;
    var _ := SetRegister(dev, index, if direction == RX then SelectRx(l) else SelectTx(l), value, side);
    e := dev.trace[|old(dev.trace)|];
  }

  /** `lsufs uic -g`: the value it prints in hexadecimal, None when it reports an error. */
  method LsufsGet(dev: UfsDevice, side: Side, lane: nat, index: Word16) returns (value: Option<Word32>)
    requires dev.Valid() && lane < 0x100
    modifies dev
    ensures |dev.trace| == |old(dev.trace)| + 1 && dev.trace[..|old(dev.trace)|] == old(dev.trace)
    ensures Unvolatile(old(dev.regs), dev.regs)
    ensures
      var r := RxRegister(side, lane, index);
      var e := dev.trace[|old(dev.trace)|];
      && e == Event(false, r, e.value, e.ok)
      && value == (if e.ok && ToInt(e.value) != ERROR then Some(e.value) else None)
      && (e.ok ==> r in dev.regs && e.value == Lookup(dev.regs, r) && dev.Polled(r, e.value))
      && (!e.ok ==> dev.Unmoved())
      && (dev.faithful && (Volatile(r) || r in old(dev.regs)) ==> e.ok)
  {
    var ret := GetRegister(dev, index, SelectRx(lane), side);
    if ret == ERROR {
      return None;
    }
    value := Some(if ret < 0 then ret + 0x1_0000_0000 else ret);
  }

  /** What one round of the polling loop comes to. */
  datatype Round = Again | Conclusive(errors: Word32) | Abandoned

  class Driver {
    const dev: UfsDevice
    const side: Side
    const targetTestCount: Word32
    const startLane: nat
    const lanes: nat
    const voltageMax: int
    const singleVoltage: bool
    const timingMaxSteps: int
    /** After how many rounds the user interrupts a loop that does not end by itself. */
    const patience: nat
    var recorded: seq<EomResult>
    var reporter: string

    ghost predicate Valid() {
      && dev.Valid()
      && startLane <= lanes <= 0x100
      && 0 < targetTestCount < 0x80
      && timingMaxSteps >= 0 && (!singleVoltage ==> voltageMax >= 0)
    }

    constructor (dev: UfsDevice, side: Side, lane: Option<nat>, target: Option<Word32>,
                 timingMaxSteps: int, voltage: (int, bool), patience: nat)
      requires dev.Valid()
      requires lane.Some? ==> lane.value < 0x100
      requires target.Some? ==> 0 < target.value <= 127
      requires timingMaxSteps >= 0 && (!voltage.1 ==> voltage.0 >= 0)
      ensures Valid() && this.dev == dev && this.side == side && recorded == [] && reporter == ""
      ensures (lanes, startLane) == DetermineLanes(lane)
      ensures targetTestCount == if target.Some? then target.value else 0x5D
      ensures (voltageMax, singleVoltage) == voltage && this.timingMaxSteps == timingMaxSteps
    {
      this.dev, this.side, this.patience := dev, side, patience;
      targetTestCount := if target.Some? then target.value else 0x5D;
      lanes, startLane := DetermineLanes(lane).0, DetermineLanes(lane).1;
      voltageMax, singleVoltage := voltage.0, voltage.1;
      this.timingMaxSteps := timingMaxSteps;
      recorded, reporter := [], "";
    }

    function SweepWindow(): Window
      requires Valid()
    {
      if singleVoltage then Window(-timingMaxSteps, 2 * timingMaxSteps + 1, voltageMax, 1)
      else FullWindow(timingMaxSteps, voltageMax)
    }

    /** The driver is about to sweep what was asked for, on a device that offered these registers. */
    ghost predicate SetUp(regs: map<Register, Word32>, side: Side, lane: Option<nat>, voltage: Option<int>,
                          target: Option<Word32>)
      reads this
    {
      && Valid() && this.side == side && recorded == [] && reporter == ""
      && (lanes, startLane) == DetermineLanes(lane)
      && targetTestCount == (if target.Some? then target.value else 0x5D)
      && PyCanSweep(regs, side, startLane, voltage)
      && SweepWindow() == PyWindow(voltage, TimingStepsOf(regs, side, startLane).value,
                                   VoltageStepsOf(regs, side, startLane).value)
    }

    // ----- One point -----

    /** The same six writes as the C program's, but a write that fails goes unnoticed. */
    method ConfigEom(lane: nat, timingConfig: Word32, voltageConfig: Word32)
      requires Valid() && lane < 0x100 && timingConfig < 0x80 && voltageConfig < 0x80
      modifies dev
      ensures |dev.trace| == |old(dev.trace)| + 6 && old(dev.trace) <= dev.trace
      ensures Attempts(dev.trace[|old(dev.trace)|..], ConfigWrites(side, lane, timingConfig, voltageConfig, targetTestCount))
      ensures AllWritten(dev.trace[|old(dev.trace)|..]) ==>
        Programmed(lane, timingConfig, voltageConfig) && dev.stopped == {}
      ensures dev.trace[|old(dev.trace)| + 5].ok ==> dev.stopped == {}
      ensures dev.faithful ==> AllWritten(dev.trace[|old(dev.trace)|..])
    {
      hide ConfigWrites;
      ghost var first := ProgramPoint(lane, timingConfig, voltageConfig);
      ghost var e4 := LsufsSet(dev, None, PA_TXHSADAPTTYPE, 3, TX, Local);
      ghost var e5 := LsufsSet(dev, None, PA_PWRMODE, 0x11, TX, Local);
      ghost var writes := first + [e4, e5];
      assert dev.trace[|old(dev.trace)|..] == writes;
      SixWritten(side, lane, timingConfig, voltageConfig, targetTestCount, writes);
    }

    /** The first four writes: the monitor's own registers. */
    method ProgramPoint(lane: nat, timingConfig: Word32, voltageConfig: Word32) returns (ghost writes: seq<Event>)
      requires Valid() && lane < 0x100 && timingConfig < 0x80 && voltageConfig < 0x80
      modifies dev
      ensures dev.trace == old(dev.trace) + writes && |writes| == 4
      ensures Asked(writes[0]) == Wrote(RxRegister(side, lane, RX_EYEMON_ENABLE), 1)
      ensures Asked(writes[1]) == Wrote(RxRegister(side, lane, RX_EYEMON_TIMING_STEPS), timingConfig)
      ensures Asked(writes[2]) == Wrote(RxRegister(side, lane, RX_EYEMON_VOLTAGE_STEPS), voltageConfig)
      ensures Asked(writes[3]) == Wrote(RxRegister(side, lane, RX_EYEMON_TARGET_TEST_COUNT), targetTestCount)
      ensures writes[1].ok && writes[2].ok && writes[3].ok ==> Programmed(lane, timingConfig, voltageConfig)
      ensures dev.faithful ==> writes[0].ok && writes[1].ok && writes[2].ok && writes[3].ok
    {
      ghost var e0 := LsufsSet(dev, Some(lane), RX_EYEMON_ENABLE, 1, RX, side);
      ghost var e1 := LsufsSet(dev, Some(lane), RX_EYEMON_TIMING_STEPS, timingConfig, RX, side);
      ghost var e2 := LsufsSet(dev, Some(lane), RX_EYEMON_VOLTAGE_STEPS, voltageConfig, RX, side);
      ghost var e3 := LsufsSet(dev, Some(lane), RX_EYEMON_TARGET_TEST_COUNT, targetTestCount, RX, side);
      writes := [e0, e1, e2, e3];
    }

    lemma SixWritten(side: Side, lane: nat, timingCode: Word32, voltCode: Word32, target: Word32, w: seq<Event>)
      requires |w| == 6
      ensures AllWritten(w) <==> w[0].ok && w[1].ok && w[2].ok && w[3].ok && w[4].ok && w[5].ok
      ensures Attempts(w, ConfigWrites(side, lane, timingCode, voltCode, target)) <==>
        && Asked(w[0]) == Wrote(RxRegister(side, lane, RX_EYEMON_ENABLE), 1)
        && Asked(w[1]) == Wrote(RxRegister(side, lane, RX_EYEMON_TIMING_STEPS), timingCode)
        && Asked(w[2]) == Wrote(RxRegister(side, lane, RX_EYEMON_VOLTAGE_STEPS), voltCode)
        && Asked(w[3]) == Wrote(RxRegister(side, lane, RX_EYEMON_TARGET_TEST_COUNT), target)
        && Asked(w[4]) == Wrote(Register(Local, SelectTx(0), PA_TXHSADAPTTYPE), PA_NO_ADAPT)
        && Asked(w[5]) == Wrote(Register(Local, SelectTx(0), PA_PWRMODE), 0x11)
    {
    }

    predicate Programmed(lane: nat, timingConfig: Word32, voltageConfig: Word32)
      reads dev
    {
      && Lookup(dev.regs, RxRegister(side, lane, RX_EYEMON_TIMING_STEPS)) == timingConfig
      && Lookup(dev.regs, RxRegister(side, lane, RX_EYEMON_VOLTAGE_STEPS)) == voltageConfig
      && Lookup(dev.regs, RxRegister(side, lane, RX_EYEMON_TARGET_TEST_COUNT)) == targetTestCount
    }

    function StartOf(lane: nat): Register {
      RxRegister(side, lane, RX_EYEMON_START)
    }

    /** The loop ends by itself: a monitor that has stopped shows conclusive counts, and one that
        still runs has a target at least as high as the one waited for. */
    predicate Ends(lane: nat)
      reads dev
    {
      if StartOf(lane) in dev.stopped then
        dev.eomWork == 0 && Concluded(CountersOf(dev.regs, StartOf(lane)), targetTestCount)
      else TargetOf(dev.regs, StartOf(lane)) >= targetTestCount
    }

    /** The monitor has stopped with counts that this program takes for inconclusive. */
    predicate Stuck(lane: nat)
      reads dev
    {
      && StartOf(lane) in dev.stopped && dev.eomWork == 0 && Lookup(dev.regs, StartOf(lane)) == 0
      && !Concluded(CountersOf(dev.regs, StartOf(lane)), targetTestCount)
    }

    /** What was read, None if the command failed or the value reads as an error. */
    function Shown(e: Event): Option<Word32> {
      if e.ok && ToInt(e.value) != ERROR then Some(e.value) else None
    }

    /** What a round comes to, from what was read in it: Start and, if it reads 0, both counts. */
    predicate RoundOf(round: Round, polls: seq<Event>) {
      && |polls| >= 1
      && (Shown(polls[0]) == Some(1) ==> round == Again && |polls| == 1)
      && (Shown(polls[0]) != Some(0) && Shown(polls[0]) != Some(1) ==> round == Abandoned && |polls| == 1)
      && (Shown(polls[0]) == Some(0) ==>
           && |polls| == 3
           && round ==
                if Shown(polls[1]) == None || Shown(polls[2]) == None then Abandoned
                else if polls[1].value >= targetTestCount || polls[2].value >= 60 then Conclusive(polls[2].value)
                else Again)
    }

    /** One round of the loop. A loop that ends uses up work; one that is stuck is, after a round
        in which no read failed, where it was. */
    method PollRound(lane: nat) returns (round: Round)
      requires Valid() && lane < 0x100
      modifies dev
      ensures old(dev.trace) <= dev.trace
      ensures forall i | |old(dev.trace)| <= i < |dev.trace| :: !dev.trace[i].isSet
      ensures Unvolatile(old(dev.regs), dev.regs)
      ensures RoundOf(round, dev.trace[|old(dev.trace)|..])
      ensures dev.OracleFor(StartOf(lane)) == old(dev.OracleFor(StartOf(lane)))
      ensures TargetOf(dev.regs, StartOf(lane)) == TargetOf(old(dev.regs), StartOf(lane))
      ensures round.Conclusive? ==>
        && |dev.trace| == |old(dev.trace)| + 3
        && Concludes(side, targetTestCount, lane, round.errors, dev.trace[|old(dev.trace)|..])
      ensures round == Again ==> dev.eomWork < old(dev.eomWork) || Stuck(lane)
      ensures old(Ends(lane)) && round == Again ==> Ends(lane) && dev.eomWork < old(dev.eomWork)
      ensures old(Stuck(lane)) ==>
        || (round == Again && Stuck(lane) && forall q :: Lookup(dev.regs, q) == Lookup(old(dev.regs), q))
        || (round == Abandoned && exists i :: |old(dev.trace)| <= i < |dev.trace| && !dev.trace[i].ok)
      ensures dev.faithful && old(dev.Settled(StartOf(lane))) ==>
        && round != Abandoned && dev.Settled(StartOf(lane))
        && (round.Conclusive? ==> round.errors == old(dev.OracleFor(StartOf(lane))).errors)
      ensures dev.faithful ==> forall i | |old(dev.trace)| <= i < |dev.trace| :: dev.trace[i].ok
    {
      var start := LsufsGet(dev, side, lane, RX_EYEMON_START);
      if start == Some(1) {
        return Again;
      } else if start == Some(0) {
        round := ReadCounts(lane);
      } else {
        round := Abandoned;
      }
    }

    /** The rest of a round, once Start reads 0: both counts. The counts of a monitor that does not
        run stay. */
    method ReadCounts(lane: nat) returns (round: Round)
      requires Valid() && lane < 0x100
      modifies dev
      ensures old(dev.trace) <= dev.trace
      ensures forall i | |old(dev.trace)| <= i < |dev.trace| :: !dev.trace[i].isSet
      ensures Unvolatile(old(dev.regs), dev.regs) && dev.eomWork == old(dev.eomWork) && dev.stopped == old(dev.stopped)
      ensures old(dev.eomWork) == 0 ==> forall q :: Lookup(dev.regs, q) == Lookup(old(dev.regs), q)
      ensures |dev.trace| == |old(dev.trace)| + 2
      ensures
        var tested, errors := Shown(dev.trace[|old(dev.trace)|]), Shown(dev.trace[|old(dev.trace)| + 1]);
        round ==
          if tested == None || errors == None then Abandoned
          else if tested.value >= targetTestCount || errors.value >= 60 then Conclusive(errors.value)
          else Again
      ensures round.Conclusive? ==>
        && |dev.trace| == |old(dev.trace)| + 2
        && (var tested := dev.trace[|old(dev.trace)|].value;
            && dev.trace[|old(dev.trace)|..] ==
                 [ReadEvent(RxRegister(side, lane, RX_EYEMON_TESTED_COUNT), tested),
                  ReadEvent(RxRegister(side, lane, RX_EYEMON_ERROR_COUNT), round.errors)]
            && Concluded(Counters(tested, round.errors), targetTestCount))
      ensures old(dev.eomWork) == 0 ==>
        var counts := CountersOf(old(dev.regs), StartOf(lane));
        match round
        case Again => !Concluded(counts, targetTestCount)
        case Conclusive(errors) => Concluded(counts, targetTestCount) && errors == counts.errors
        case Abandoned =>
          || ToInt(counts.tested) == ERROR || ToInt(counts.errors) == ERROR
          || exists i :: |old(dev.trace)| <= i < |dev.trace| && !dev.trace[i].ok
      ensures dev.faithful ==> forall i | |old(dev.trace)| <= i < |dev.trace| :: dev.trace[i].ok
    {
      var testCount := LsufsGet(dev, side, lane, RX_EYEMON_TESTED_COUNT);
      var errCount := LsufsGet(dev, side, lane, RX_EYEMON_ERROR_COUNT);
      if testCount.Some? && errCount.Some? {
        if testCount.value >= targetTestCount || errCount.value >= EOM_PHY_ERROR_COUNT_THRESHOLD {
          return Conclusive(errCount.value);
        }
        return Again;
      }
      return Abandoned;
    }

    /** A stuck loop stays stuck: after any number of rounds it is where it was, unless a read
        failed. */
    method KeepPolling(lane: nat, rounds: nat) returns (round: Round)
      requires Valid() && lane < 0x100 && Stuck(lane)
      modifies dev
      ensures old(dev.trace) <= dev.trace
      ensures round == Abandoned ==> exists i :: |old(dev.trace)| <= i < |dev.trace| && !dev.trace[i].ok
      ensures round != Abandoned ==>
        round == Again && Stuck(lane) && forall q :: Lookup(dev.regs, q) == Lookup(old(dev.regs), q)
      ensures dev.faithful ==> round == Again
    {
      round := Again;
      for i := 0 to rounds
        invariant old(dev.trace) <= dev.trace && round == Again && Stuck(lane)
        invariant forall q :: Lookup(dev.regs, q) == Lookup(old(dev.regs), q)
      {
        round := PollRound(lane);
        if round != Again {
          return;
        }
      }
    }

    /** Measures one point. The loop ends by itself if the power mode write succeeded and the target
        register holds at least the target; otherwise it may not, and the user may have to
        interrupt it. What is recorded was read in the last round. */
    method EomScan(lane: nat, timing: int, voltage: int) returns (gaveUp: bool)
      requires Valid() && lane < 0x100
      modifies dev, this`recorded, this`reporter
      ensures old(dev.trace) <= dev.trace
      ensures |dev.trace| >= |old(dev.trace)| + 6
      ensures gaveUp ==> recorded == old(recorded) && exists i ::
        |old(dev.trace)| <= i < |old(dev.trace)| + 6 && dev.trace[i].isSet && !dev.trace[i].ok
      ensures dev.trace[|old(dev.trace)| + 5].ok && TargetOf(dev.regs, StartOf(lane)) >= targetTestCount ==> !gaveUp
      ensures
        var s := StepSince(old(recorded), Cell(lane, timing, voltage));
        && PyStepTrace(side, targetTestCount, s, dev.trace[|old(dev.trace)|..])
        && Printed(s, old(recorded), old(reporter))
      ensures dev.faithful ==>
        && !gaveUp && (forall i | |old(dev.trace)| <= i < |dev.trace| :: dev.trace[i].ok)
        && recorded == old(recorded)
             + [UfsEom.OracleResult(dev.oracle, side, targetTestCount, Cell(lane, timing, voltage))]
    {
      hide ResultLine, ConfigWrites, Concludes;
      SameEncoding(voltage);
      SameEncoding(timing);
      var voltageConfig := CalculateConfig(voltage, 6, 0x3F);
      var timingConfig := CalculateConfig(timing, 6, 0x3F);
      ConfigEom(lane, timingConfig, voltageConfig);
      ghost var configured := dev.trace;
      SomeLost(configured[|old(dev.trace)|..], side, lane, timingConfig, voltageConfig, targetTestCount);
      assert AllWritten(configured[|old(dev.trace)|..]) ==> Ends(lane);
      LostBefore(old(dev.trace), configured);
      var round;
      gaveUp, round := Poll(lane);
      if round.Conclusive? {
        PrintResult(lane, timing, voltage, round.errors);
      }
      StepDone(old(dev.trace), configured, dev.trace, lane, timing, voltage, round);
    }

    lemma LostBefore(t0: seq<Event>, t1: seq<Event>)
      requires t0 <= t1 && |t1| == |t0| + 6
      ensures (exists i :: 0 <= i < 6 && t1[|t0|..][i].isSet && !t1[|t0|..][i].ok) ==>
        exists i :: |t0| <= i < |t1| && t1[i].isSet && !t1[i].ok
    {
      if i :| 0 <= i < 6 && t1[|t0|..][i].isSet && !t1[|t0|..][i].ok {
        assert t1[|t0| + i] == t1[|t0|..][i];
      }
    }

    /** The polling loop. The user looks after it only if it does not end by itself. */
    method Poll(lane: nat) returns (gaveUp: bool, round: Round)
      requires Valid() && lane < 0x100
      modifies dev
      ensures old(dev.trace) <= dev.trace
      ensures forall i | |old(dev.trace)| <= i < |dev.trace| :: !dev.trace[i].isSet
      ensures gaveUp <==> round == Again
      ensures old(Ends(lane)) ==> !gaveUp
      ensures TargetOf(dev.regs, StartOf(lane)) == TargetOf(old(dev.regs), StartOf(lane))
      ensures round.Conclusive? ==>
        && |dev.trace| >= |old(dev.trace)| + 3
        && Concludes(side, targetTestCount, lane, round.errors, dev.trace[|dev.trace| - 3..])
      ensures dev.faithful ==> forall i | |old(dev.trace)| <= i < |dev.trace| :: dev.trace[i].ok
      ensures dev.faithful && old(Ends(lane) && dev.Settled(StartOf(lane))) ==>
        round == Conclusive(old(dev.OracleFor(StartOf(lane))).errors)
    {
      hide Ends, Stuck, Concludes, UfsDevice.Settled, UfsDevice.OracleFor;
      var ends := Ends(lane);
      var left := patience;
      gaveUp, round := false, Again;
      while round == Again
        invariant old(dev.trace) <= dev.trace && !gaveUp
        invariant forall i | |old(dev.trace)| <= i < |dev.trace| :: !dev.trace[i].isSet
        invariant ends && round == Again ==> Ends(lane)
        invariant TargetOf(dev.regs, StartOf(lane)) == TargetOf(old(dev.regs), StartOf(lane))
        invariant round.Conclusive? ==>
          && |dev.trace| >= |old(dev.trace)| + 3
          && Concludes(side, targetTestCount, lane, round.errors, dev.trace[|dev.trace| - 3..])
        invariant dev.faithful ==> forall i | |old(dev.trace)| <= i < |dev.trace| :: dev.trace[i].ok
        invariant dev.faithful && old(dev.Settled(StartOf(lane))) ==>
          && round != Abandoned
          && (round == Again ==> dev.Settled(StartOf(lane)))
          && dev.OracleFor(StartOf(lane)) == old(dev.OracleFor(StartOf(lane)))
          && (round.Conclusive? ==> round.errors == old(dev.OracleFor(StartOf(lane))).errors)
        decreases round == Again, if ends then dev.eomWork else left
      {
        if !ends {
          if left == 0 {
            return true, Again;
          }
          left := left - 1;
        }
        ghost var before := dev.trace;
        round := PollRound(lane);
        assert round.Conclusive? ==> dev.trace[|dev.trace| - 3..] == dev.trace[|before|..];
      }
    }

    /** print() with its default separator. */
    method PrintResult(lane: nat, timing: int, voltage: int, errCount: nat)
      modifies this`recorded, this`reporter
      ensures
        var r := EomResult(lane, timing, voltage, errCount);
        recorded == old(recorded) + [r] && reporter == old(reporter) + ResultLine(r)
    {
      recorded := recorded + [EomResult(lane, timing, voltage, errCount)];
      ResultLineWords(EomResult(lane, timing, voltage, errCount));
      reporter := reporter + Join(["lane:", PrintInt(lane), "timing:", PrintInt(timing),
        "voltage:", PrintInt(voltage), "error", "count:", PrintInt(errCount)]) + "\n";
    }

    /** The step that was taken since `before` was all that was recorded. */
    function StepSince(before: seq<EomResult>, c: Cell): PyStep
      reads this
    {
      Point(c, if |recorded| > |before| then Some(recorded[|recorded| - 1]) else None)
    }

    /** The step recorded and printed its result, if it has one. */
    predicate Printed(s: PyStep, before: seq<EomResult>, text: string)
      requires s.Point?
      reads this
    {
      if s.result.Some? then recorded == before + [s.result.value] && reporter == text + ResultLine(s.result.value)
      else recorded == before && reporter == text
    }

    lemma StepDone(t0: seq<Event>, t1: seq<Event>, t2: seq<Event>, lane: nat, timing: int, voltage: int, round: Round)
      requires t0 <= t1 <= t2 && |t1| == |t0| + 6
      requires Attempts(t1[|t0|..], ConfigWrites(side, lane, EncodeSteps(timing), EncodeSteps(voltage), targetTestCount))
      requires forall i | |t1| <= i < |t2| :: !t2[i].isSet
      requires round.Conclusive? ==>
        |t2| >= |t1| + 3 && Concludes(side, targetTestCount, lane, round.errors, t2[|t2| - 3..])
      ensures
        var c := Cell(lane, timing, voltage);
        PyStepTrace(side, targetTestCount, Point(c, None), t2[|t0|..])
        && (round.Conclusive? ==>
             PyStepTrace(side, targetTestCount, Point(c, Some(EomResult(lane, timing, voltage, round.errors))), t2[|t0|..]))
    {
      hide ConfigWrites, Concludes;
      var seg := t2[|t0|..];
      assert seg[..6] == t1[|t0|..];
      assert |t2| >= |t1| + 3 ==> seg[|seg| - 3..] == t2[|t2| - 3..];
    }

    // ----- The sweep -----

    /** The report has one line for every result, in order. */
    ghost predicate Reported()
      reads this
    {
      reporter == Concat(ResultLines(recorded))
    }

    lemma ReportedGrows(before: seq<EomResult>, text: string, r: EomResult)
      requires text == Concat(ResultLines(before))
      ensures text + ResultLine(r) == Concat(ResultLines(before + [r]))
    {
      assert (before + [r])[..|before|] == before;
      ConcatAppend(ResultLines(before), [ResultLine(r)]);
      ConcatOne(ResultLine(r));
    }

    /** What has been recorded is what the device says about its cells. */
    ghost predicate FromDevice()
      reads this
    {
      forall i | 0 <= i < |recorded| ::
        recorded[i] == UfsEom.OracleResult(dev.oracle, side, targetTestCount, CellOf(recorded[i]))
    }

    /** The commands since t0 are those of the given steps, and their results are recorded; on a
        faithful device nothing was lost. */
    ghost predicate Performed(steps: seq<PyStep>, t0: seq<Event>)
      reads this, dev
    {
      && t0 <= dev.trace && PyRun(side, targetTestCount, steps, dev.trace[|t0|..])
      && recorded == PyResults(steps) && Reported()
      && (dev.faithful ==> FromDevice() && Flawless(steps, dev.trace[|t0|..]))
    }

    /** The sweep has come as far as the given actions. */
    ghost predicate Done(actions: seq<Action>, t0: seq<Event>)
      reads this, dev
    {
      exists steps :: Performed(steps, t0) && PyActions(steps) == actions
    }

    /** One write to the lane's enable register, as a step of the sweep. */
    method SwitchLane(lane: nat, on: bool, ghost actions: seq<Action>, ghost t0: seq<Event>)
      requires Valid() && lane < 0x100 && Done(actions, t0)
      modifies dev
      ensures Done(actions + [if on then Enable(lane) else Disable(lane)], t0)
    {
      hide PyRun, PyResults, PyActions, Reported, FromDevice, Flawless;
      ghost var steps :| Performed(steps, t0) && PyActions(steps) == actions;
      ghost var s := Switch(lane, on);
      ghost var e := LsufsSet(dev, Some(lane), RX_EYEMON_ENABLE, if on then 1 else 0, RX, side);
      assert dev.trace[|old(dev.trace)|..] == [e];
      PyRunGrows(side, targetTestCount, steps, t0, old(dev.trace), s, dev.trace);
      StillFlawless(steps, s, t0, old(dev.trace), dev.trace);
      assert Performed(steps + [s], t0);
    }

    /** One point, as a step of the sweep. */
    method ScanCell(lane: nat, timing: int, voltage: int, ghost actions: seq<Action>, ghost t0: seq<Event>)
      returns (gaveUp: bool)
      requires Valid() && lane < 0x100 && Done(actions, t0)
      modifies dev, this`recorded, this`reporter
      ensures Done(actions + [Scan(Cell(lane, timing, voltage))], t0)
      ensures gaveUp ==> Halfway(actions + [Scan(Cell(lane, timing, voltage))], t0)
    {
      hide ResultLine, ResultLines, Concat, PyRun, PyResults, PyActions, PyStepTrace, Flawless;
      ghost var steps :| Performed(steps, t0) && PyActions(steps) == actions;
      gaveUp := EomScan(lane, timing, voltage);
      ghost var s := StepSince(old(recorded), Cell(lane, timing, voltage));
      if s.result.Some? {
        ReportedGrows(old(recorded), old(reporter), s.result.value);
      }
      PyRunGrows(side, targetTestCount, steps, t0, old(dev.trace), s, dev.trace);
      StillFlawless(steps, s, t0, old(dev.trace), dev.trace);
      assert Performed(steps + [s], t0);
      assert t0 <= old(dev.trace) <= dev.trace;
    }

    lemma StillFlawless(steps: seq<PyStep>, s: PyStep, t0: seq<Event>, before: seq<Event>, after: seq<Event>)
      requires t0 <= before <= after
      ensures
        (Flawless(steps, before[|t0|..]) && (s.Point? ==> s.result.Some?) && forall i | |before| <= i < |after| :: after[i].ok)
        ==> Flawless(steps + [s], after[|t0|..])
    {
      var tr, old_tr := after[|t0|..], before[|t0|..];
      assert forall i | 0 <= i < |tr| :: tr[i] == after[|t0| + i];
      assert forall i | 0 <= i < |old_tr| :: old_tr[i] == tr[i];
    }

    method ScanVoltages(lane: nat, timing: int, ghost actions: seq<Action>, ghost t0: seq<Event>)
      returns (gaveUp: bool)
      requires Valid() && lane < 0x100 && !singleVoltage && Done(actions, t0)
      modifies dev, this`recorded, this`reporter
      ensures !gaveUp ==> Done(actions + Scans(Column(lane, timing, SweepWindow().low, SweepWindow().volts)), t0)
      ensures gaveUp ==> Halfway(actions + Scans(Column(lane, timing, SweepWindow().low, SweepWindow().volts)), t0)
    {
      hide Done, Scans, Column, LostWrite;
      ScansColumn(actions, lane, timing, -voltageMax, 0);
      for voltage := -voltageMax to voltageMax + 1
        invariant Done(actions + Scans(Column(lane, timing, -voltageMax, voltage + voltageMax)), t0)
      {
        ghost var sofar := actions + Scans(Column(lane, timing, -voltageMax, voltage + voltageMax));
        gaveUp := ScanCell(lane, timing, voltage, sofar, t0);
        ScansColumn(actions, lane, timing, -voltageMax, voltage + voltageMax);
        if gaveUp {
          ColumnWithin(actions, lane, timing, -voltageMax, voltage + voltageMax + 1, SweepWindow().volts);
          return;
        }
      }
      gaveUp := false;
    }

    ghost predicate LostWrite(t0: seq<Event>)
      reads dev
    {
      exists i :: |t0| <= i < |dev.trace| && dev.trace[i].isSet && !dev.trace[i].ok
    }

    /** The user interrupted the sweep on the way through the plan, which can only happen after a write
        was lost. */
    ghost predicate Halfway(plan: seq<Action>, t0: seq<Event>)
      reads this, dev
    {
      && !dev.faithful && LostWrite(t0)
      && exists actions :: actions <= plan && Done(actions, t0)
    }

    method SweepLane(lane: nat, ghost actions: seq<Action>, ghost t0: seq<Event>) returns (gaveUp: bool)
      requires Valid() && lane < 0x100 && Done(actions, t0)
      modifies dev, this`recorded, this`reporter
      ensures
        var plan := actions + [Enable(lane)] + Scans(LaneCells(lane, SweepWindow())) + [Disable(lane)];
        if gaveUp then Halfway(plan, t0) else Done(plan, t0)
    {
      hide Done, Scans, Column, Columns, LostWrite;
      ghost var w := SweepWindow();
      SwitchLane(lane, true, actions, t0);
      ghost var on := actions + [Enable(lane)];
      ScansColumns(on, lane, w, 0);
      if !singleVoltage {
        for timing := -timingMaxSteps to timingMaxSteps + 1
          invariant Done(on + Scans(Columns(lane, w, timing + timingMaxSteps)), t0)
        {
          gaveUp := ScanVoltages(lane, timing, on + Scans(Columns(lane, w, timing + timingMaxSteps)), t0);
          ScansColumns(on, lane, w, timing + timingMaxSteps);
          if gaveUp {
            ColumnsWithin(on, lane, w, timing + timingMaxSteps + 1);
            return;
          }
        }
      } else {
        for timing := -timingMaxSteps to timingMaxSteps + 1
          invariant Done(on + Scans(Columns(lane, w, timing + timingMaxSteps)), t0)
        {
          ghost var sofar := on + Scans(Columns(lane, w, timing + timingMaxSteps));
          gaveUp := ScanCell(lane, timing, voltageMax, sofar, t0);
          ScansColumn(sofar, lane, timing, voltageMax, 0);
          ScansColumns(on, lane, w, timing + timingMaxSteps);
          if gaveUp {
            ColumnsWithin(on, lane, w, timing + timingMaxSteps + 1);
            return;
          }
        }
      }
      SwitchLane(lane, false, on + Scans(LaneCells(lane, w)), t0);
      gaveUp := false;
    }

    /** The whole sweep: what the trace consists of and what it recorded. */
    ghost predicate Finished(t0: seq<Event>)
      requires Valid()
      reads this, dev
    {
      Done(PyPlan(startLane, lanes - startLane, SweepWindow()), t0)
    }

    /** On any device the sweep attempts every point of its plan, or the user gives up on the way. */
    method EomStart() returns (gaveUp: bool)
      requires Valid() && recorded == [] && reporter == ""
      modifies dev, this`recorded, this`reporter
      ensures !gaveUp ==> Finished(old(dev.trace))
      ensures gaveUp ==> Halfway(PyPlan(startLane, lanes - startLane, SweepWindow()), old(dev.trace))
    {
      hide Done, Scans, LaneCells, PyPlan, SweepWindow, LostWrite;
      ghost var t0, w := dev.trace, SweepWindow();
      Start(t0);
      PyPlanLane(startLane, 0, w);
      for lane := startLane to lanes
        invariant Done(PyPlan(startLane, lane - startLane, w), t0)
      {
        gaveUp := SweepLane(lane, PyPlan(startLane, lane - startLane, w), t0);
        PyPlanLane(startLane, lane - startLane, w);
        if gaveUp {
          PyPlanPrefix(startLane, lane - startLane + 1, lanes - startLane, w);
          return;
        }
      }
      gaveUp := false;
    }

    lemma Start(t0: seq<Event>)
      requires recorded == [] && reporter == "" && t0 == dev.trace
      ensures Done([], t0)
    {
      PyRunStart(side, targetTestCount);
      assert dev.trace[|t0|..] == [];
      assert Performed([], t0) && PyActions([]) == [];
    }

    /** On any device, however far the sweep got: the report has one line for each result, and every
        result stems from an attempt of its point, which backs it exactly if no write was lost. */
    lemma RecordedStems(actions: seq<Action>, t0: seq<Event>, r: EomResult)
      requires Done(actions, t0) && r in recorded
      ensures Reported() && t0 <= dev.trace
      ensures exists a, b :: (
        && RecordedAt(side, targetTestCount, r, dev.trace[|t0|..], a, b)
        && (PointTrace(side, targetTestCount, r, dev.trace[|t0|..][a..b]) <==> AllWritten(dev.trace[|t0|..][a..b])))
    {
      hide PyRun, PyResults, RecordedAt, PointTrace;
      var steps :| Performed(steps, t0) && PyActions(steps) == actions;
      PyRunRecords(side, targetTestCount, steps, dev.trace[|t0|..], r);
    }

    /** A finished sweep on a device that does not fail has recorded what the device says about
        every cell, in sweep order, each backed by its measurement; the report has one line each;
        every lane is switched off. */
    lemma SweepRecordsGrid(t0: seq<Event>)
      requires Valid() && dev.faithful && Finished(t0)
      ensures Reported()
      ensures UfsEom.RecordedFrom(dev.oracle, side, targetTestCount,
        AllCells(startLane, lanes - startLane, SweepWindow()), recorded)
      ensures t0 <= dev.trace
      ensures forall r | r in recorded :: Measured(side, targetTestCount, r, dev.trace[|t0|..])
      ensures forall lane | startLane <= lane < lanes ::
        LastWrite(dev.trace[|t0|..], RxRegister(side, lane, RX_EYEMON_ENABLE)) == Some(0)
    {
      var w := SweepWindow();
      var cells := AllCells(startLane, lanes - startLane, w);
      hide PyRun, PyPlan, AllCells, Measured, ResultLines, Concat, PyActions, PyResults, LastWrite, CellSeq, Flawless;
      var steps :| Performed(steps, t0) && PyActions(steps) == PyPlan(startLane, lanes - startLane, w);
      PyRunRecordsGrid(side, targetTestCount, steps, dev.trace[|t0|..], startLane, lanes - startLane, w);
      forall i | 0 <= i < |recorded|
        ensures recorded[i] == UfsEom.OracleResult(dev.oracle, side, targetTestCount, cells[i])
      {
        assert CellSeq(recorded)[i] == CellOf(recorded[i]);
      }
    }
  }

  lemma PyRunRecordsGrid(side: Side, target: Word32, steps: seq<PyStep>, tr: seq<Event>, first: nat, lanes: nat, w: Window)
    requires PyRun(side, target, steps, tr) && Flawless(steps, tr) && PyActions(steps) == PyPlan(first, lanes, w)
    ensures CellSeq(PyResults(steps)) == AllCells(first, lanes, w)
    ensures forall r | r in PyResults(steps) :: Measured(side, target, r, tr)
    ensures forall lane | first <= lane < first + lanes ::
      LastWrite(tr, RxRegister(side, lane, RX_EYEMON_ENABLE)) == Some(0)
  {
    var segs :| PyPerforms(side, target, steps, segs) && Flatten(segs) == tr;
    hide PyPerforms, PyPlan, AllCells, Measured, Actions, Results, PyActions, PyResults, LastWrite, CellSeq, RunTrace, Flawless;
    var plain := FlawlessIsRun(side, target, steps, segs);
    CellsOfActions(plain);
    CellsOfPyPlan(first, lanes, w);
    forall r | r in PyResults(steps)
      ensures Measured(side, target, r, tr)
    {
      RunMeasures(side, target, plain, tr, r);
    }
    forall lane: nat | first <= lane < first + lanes
      ensures LastWrite(tr, RxRegister(side, lane, RX_EYEMON_ENABLE)) == Some(0)
    {
      EnableAfterRun(side, target, plain, tr, lane);
      PyPlanEndsDisabled(first, lanes, w, lane);
    }
  }

  /** The C program with the options that ask for the same sweep: both voltage limits equal to the
      single voltage, or none given; the timing limits not given. */
  function CWindow(voltage: Option<int>, timingMaxSteps: nat, voltageMaxSteps: nat): Window
    requires DetermineVoltage(voltage, voltageMaxSteps).Some?
  {
    var given := if voltage.Some? then voltage.value else UfsEom.EOM_TIMING_VOLTAGE_INIT;
    var low := UfsEom.Limit(given, 0 - voltageMaxSteps);
    var high := UfsEom.Limit(given, voltageMaxSteps);
    Window(0 - timingMaxSteps, 2 * timingMaxSteps + 1, low, high - low + 1)
  }

  function PyWindow(voltage: Option<int>, timingMaxSteps: nat, voltageMaxSteps: nat): Window
    requires DetermineVoltage(voltage, voltageMaxSteps).Some?
  {
    var (limit, single) := DetermineVoltage(voltage, voltageMaxSteps).value;
    if single then Window(0 - timingMaxSteps, 2 * timingMaxSteps + 1, limit, 1) else FullWindow(timingMaxSteps, limit)
  }

  /** Against the same device that does not fail, both programs record the same results in the
      same order, for the same lanes and for a full or a single-voltage sweep. The one exception:
      a single voltage of 255 is, to the C program, no voltage at all. */
  lemma DriversAgree(oracle: (Register, Word32, Word32, Word32) -> Counters, side: Side, target: Word32,
                     lane: Option<nat>, voltage: Option<int>, timingMaxSteps: nat, voltageMaxSteps: nat,
                     c: seq<EomResult>, py: seq<EomResult>)
    requires DetermineVoltage(voltage, voltageMaxSteps).Some?
    requires UfsEom.RecordedFrom(oracle, side, target,
      AllCells(if lane.Some? then lane.value else 0, if lane.Some? then 1 else 2,
               CWindow(voltage, timingMaxSteps, voltageMaxSteps)), c)
    requires UfsEom.RecordedFrom(oracle, side, target,
      AllCells(DetermineLanes(lane).1, DetermineLanes(lane).0 - DetermineLanes(lane).1,
               PyWindow(voltage, timingMaxSteps, voltageMaxSteps)), py)
    ensures c == py <==> voltage != Some(UfsEom.EOM_TIMING_VOLTAGE_INIT)
  {
    var cw, pw := CWindow(voltage, timingMaxSteps, voltageMaxSteps), PyWindow(voltage, timingMaxSteps, voltageMaxSteps);
    var first, lanes := DetermineLanes(lane).1, DetermineLanes(lane).0 - DetermineLanes(lane).1;
    if voltage == Some(UfsEom.EOM_TIMING_VOLTAGE_INIT) {
      AllCellsSize(first, lanes, cw);
      AllCellsSize(first, lanes, pw);
      MoreVolts(lanes * cw.timings, cw.volts);
      assert lanes * (cw.timings * cw.volts) == (lanes * cw.timings) * cw.volts;
    }
  }

  // ----- Both programs on one device -----

  /** A monitor that was given a lower target may stop with counts that are inconclusive for the
      higher one; no other can. */
  lemma LowTargetMayStick(low: Word32, target: Word32)
    ensures (exists c: Counters :: MayStop(c, low) && !Concluded(c, target)) <==> low < target
  {
    if low < target {
      assert MayStop(Counters(low, 0), low) && !Concluded(Counters(low, 0), target);
    }
  }

  /** A lost write of PA_PWRMODE leaves the monitor where the last measurement stopped it, here after
      the 10 tests it was given, without errors. This program, which waits for 93, is stuck; if no
      read fails, it still polls after any number of rounds. */
  method PollsForEver(rounds: nat) returns (drv: Driver, round: Round)
    ensures fresh(drv) && fresh(drv.dev) && drv.Valid() && drv.targetTestCount == 0x5D
    ensures CountersOf(drv.dev.regs, drv.StartOf(0)) == Counters(10, 0) && TargetOf(drv.dev.regs, drv.StartOf(0)) == 10
    ensures drv.Stuck(0) && round == Again
  {
    var start := RxRegister(Peer, 0, RX_EYEMON_START);
    var regs := map[start.(attribute := RX_EYEMON_TARGET_TEST_COUNT) := 10,
                    start.(attribute := RX_EYEMON_TESTED_COUNT) := 10];
    var dev := new UfsDevice(true, (r, timing, volt, target) => Counters(0, EOM_PHY_ERROR_COUNT_THRESHOLD), regs);
    dev.stopped, dev.eomWork := {start}, 0;
    drv := new Driver(dev, Peer, Some(0), None, 31, (31, false), 0);
    round := drv.KeepPolling(0, rounds);
  }

  /** What `lsufs uic -g` prints for a register that does not change by itself. */
  function PrintedValue(regs: map<Register, Word32>, r: Register): Option<Word32> {
    if r in regs && ToInt(Lookup(regs, r)) != ERROR then Some(Lookup(regs, r)) else None
  }

  function TimingStepsOf(regs: map<Register, Word32>, side: Side, lane: nat): Option<Word32> {
    PrintedValue(regs, RxRegister(side, lane, RX_EYEMON_TIMING_MAX_STEPS_CAPABILITY))
  }

  function VoltageStepsOf(regs: map<Register, Word32>, side: Side, lane: nat): Option<Word32> {
    PrintedValue(regs, RxRegister(side, lane, RX_EYEMON_VOLTAGE_MAX_STEPS_CAPABILITY))
  }

  /** The Python program gets as far as its sweep. */
  predicate PyCanSweep(regs: map<Register, Word32>, side: Side, lane: nat, voltage: Option<int>) {
    var volts := VoltageStepsOf(regs, side, lane);
    TimingStepsOf(regs, side, lane).Some? && volts.Some? && DetermineVoltage(voltage, volts.value).Some?
  }

  /** The limits as they were read; None for one that could not be read. */
  datatype Caps = Caps(timingSteps: Option<int>, timingOffset: Option<int>,
                       voltageSteps: Option<int>, voltageOffset: Option<int>)

  function CapsOf(regs: map<Register, Word32>, side: Side, lane: nat): Caps {
    Caps(PrintedValue(regs, RxRegister(side, lane, RX_EYEMON_TIMING_MAX_STEPS_CAPABILITY)),
         PrintedValue(regs, RxRegister(side, lane, RX_EYEMON_TIMING_MAX_OFFSET_CAPABILITY)),
         PrintedValue(regs, RxRegister(side, lane, RX_EYEMON_VOLTAGE_MAX_STEPS_CAPABILITY)),
         PrintedValue(regs, RxRegister(side, lane, RX_EYEMON_VOLTAGE_MAX_OFFSET_CAPABILITY)))
  }

  /** Both programs read the same limits, if the C program can read them at all. */
  lemma CapsAgree(regs: map<Register, Word32>, side: Side, lane: nat)
    requires UfsEom.Readable(UfsEom.LimitsOf(regs, side, lane))
    ensures
      var l := UfsEom.LimitsOf(regs, side, lane);
      CapsOf(regs, side, lane) ==
        Caps(Some(l.timingMaxSteps), Some(l.timingMaxOffset), Some(l.voltageMaxSteps), Some(l.voltageMaxOffset))
  {
  }

  /** What was read of a limit, if it was read, is what the register holds. */
  predicate ReadFrom(read: Caps, held: Caps) {
    && (read.timingSteps.Some? ==> read.timingSteps == held.timingSteps)
    && (read.timingOffset.Some? ==> read.timingOffset == held.timingOffset)
    && (read.voltageSteps.Some? ==> read.voltageSteps == held.voltageSteps)
    && (read.voltageOffset.Some? ==> read.voltageOffset == held.voltageOffset)
  }

  /** get_eom_caps: all four are printed, only the two step limits are used later. */
  method GetEomCaps(dev: UfsDevice, side: Side, lane: nat)
    returns (timings: Option<Word32>, volts: Option<Word32>, caps: Caps)
    requires dev.Valid() && lane < 0x100
    modifies dev
    ensures Unvolatile(old(dev.regs), dev.regs) && OnlyReads(old(dev.trace), dev.trace)
    ensures timings == caps.timingSteps && volts == caps.voltageSteps
    ensures ReadFrom(caps, CapsOf(old(dev.regs), side, lane))
    ensures dev.faithful || NoneFailed(old(dev.trace), dev.trace) ==> caps == CapsOf(old(dev.regs), side, lane)
  {
    timings := GetCap(dev, side, lane, RX_EYEMON_TIMING_MAX_STEPS_CAPABILITY);
    var timingOffset := GetCap(dev, side, lane, RX_EYEMON_TIMING_MAX_OFFSET_CAPABILITY);
    volts := GetCap(dev, side, lane, RX_EYEMON_VOLTAGE_MAX_STEPS_CAPABILITY);
    var voltageOffset := GetCap(dev, side, lane, RX_EYEMON_VOLTAGE_MAX_OFFSET_CAPABILITY);
    caps := Caps(timings, timingOffset, volts, voltageOffset);
  }

  method GetCap(dev: UfsDevice, side: Side, lane: nat, index: Word16) returns (value: Option<Word32>)
    requires dev.Valid() && lane < 0x100 && !Volatile(RxRegister(side, lane, index))
    modifies dev
    ensures Unvolatile(old(dev.regs), dev.regs) && OnlyReads(old(dev.trace), dev.trace)
    ensures |dev.trace| == |old(dev.trace)| + 1
    ensures value.Some? || dev.faithful || dev.trace[|old(dev.trace)|].ok ==>
      value == PrintedValue(old(dev.regs), RxRegister(side, lane, index))
  {
    value := LsufsGet(dev, side, lane, index);
  }

  /** Nothing was written in between. */
  ghost predicate OnlyReads(before: seq<Event>, after: seq<Event>) {
    before <= after && forall i | |before| <= i < |after| :: !after[i].isSet
  }

  predicate NoneFailed(before: seq<Event>, after: seq<Event>) {
    forall i | |before| <= i < |after| :: after[i].ok
  }

  /** How eom_prepare ends: it exits or raises, it goes on without a limit, or the driver is ready. */
  datatype Prepared = Left | NoLimits | Ready(driver: Driver)

  /** The step limits as they were read settle how it ends: a single voltage needs the voltage limit at
      once, everything else only when the sweep starts. */
  predicate EndsLike(p: Prepared, caps: Caps, voltage: Option<int>) {
    match p
    case Left => voltage.Some? && (caps.voltageSteps == None || DetermineVoltage(voltage, caps.voltageSteps.value) == None)
    case NoLimits =>
      && (voltage.Some? ==> caps.voltageSteps.Some? && DetermineVoltage(voltage, caps.voltageSteps.value).Some?)
      && (caps.timingSteps == None || caps.voltageSteps == None)
    case Ready(_) =>
      caps.timingSteps.Some? && caps.voltageSteps.Some? && DetermineVoltage(voltage, caps.voltageSteps.value).Some?
  }

  /** eom_prepare, after its options are parsed: reads the limits and settles lanes and voltage. Nothing
      is written. */
  method EomPrepare(dev: UfsDevice, side: Side, lane: Option<nat>, voltage: Option<int>, target: Option<Word32>,
                    patience: nat)
    returns (p: Prepared, caps: Caps)
    requires dev.Valid()
    requires (lane.Some? ==> lane.value < 0x100) && (target.Some? ==> 0 < target.value <= 127)
    modifies dev
    ensures Unvolatile(old(dev.regs), dev.regs) && OnlyReads(old(dev.trace), dev.trace)
    ensures ReadFrom(caps, CapsOf(old(dev.regs), side, DetermineLanes(lane).1))
    ensures EndsLike(p, caps, voltage)
    ensures dev.faithful || NoneFailed(old(dev.trace), dev.trace) ==>
      caps == CapsOf(old(dev.regs), side, DetermineLanes(lane).1)
    ensures p.Ready? ==>
      && PyCanSweep(old(dev.regs), side, DetermineLanes(lane).1, voltage)
      && fresh(p.driver) && p.driver.dev == dev && p.driver.SetUp(old(dev.regs), side, lane, voltage, target)
    ensures dev.faithful || NoneFailed(old(dev.trace), dev.trace) ==>
      (p.Ready? <==> PyCanSweep(old(dev.regs), side, DetermineLanes(lane).1, voltage))
  {
    hide Unvolatile;
    var first := DetermineLanes(lane).1;
    var timingSteps, voltageSteps;
    timingSteps, voltageSteps, caps := GetEomCaps(dev, side, first);
    if voltage.Some? && (voltageSteps == None || DetermineVoltage(voltage, voltageSteps.value) == None) {
      return Left, caps;
    }
    if timingSteps == None || voltageSteps == None {
      return NoLimits, caps;
    }
    var settled := DetermineVoltage(voltage, voltageSteps.value);
    var driver := new Driver(dev, side, lane, target, timingSteps.value, settled.value, patience);
    p := Ready(driver);
  }

  /** eom_start without a limit: the first lane is switched on, then range() raises. */
  method StartWithoutLimits(dev: UfsDevice, side: Side, lane: Option<nat>)
    requires dev.Valid() && (lane.Some? ==> lane.value < 0x100)
    modifies dev
    ensures Raises(side, lane, old(dev.trace), dev.trace)
  {
    ghost var e := LsufsSet(dev, Some(DetermineLanes(lane).1), RX_EYEMON_ENABLE, 1, RX, side);
  }

  /** One write, which may have been lost: the first lane's monitor is switched on and stays on. */
  ghost predicate Raises(side: Side, lane: Option<nat>, before: seq<Event>, after: seq<Event>) {
    && before < after && |after| == |before| + 1
    && Asked(after[|before|]) == Wrote(RxRegister(side, DetermineLanes(lane).1, RX_EYEMON_ENABLE), 1)
  }

  /** How the program ends. */
  datatype Ending = Exits | RaisesInSweep | GivesUp | Finishes

  /** The whole program after its options are parsed, on any device. */
  method EomProgram(dev: UfsDevice, side: Side, lane: Option<nat>, voltage: Option<int>, target: Option<Word32>,
                    patience: nat)
    returns (ending: Ending, drv: Option<Driver>, caps: Caps, ghost start: seq<Event>)
    requires dev.Valid()
    requires (lane.Some? ==> lane.value < 0x100) && (target.Some? ==> 0 < target.value <= 127)
    modifies dev
    ensures OnlyReads(old(dev.trace), start)
    ensures drv.Some? <==> ending.GivesUp? || ending.Finishes?
    ensures drv.Some? ==>
      drv.value.dev == dev && drv.value.Valid() && (drv.value.lanes, drv.value.startLane) == DetermineLanes(lane)
    ensures match ending
      case Exits => dev.trace == start
      case RaisesInSweep => Raises(side, lane, start, dev.trace)
      case GivesUp =>
        var d := drv.value;
        d.Halfway(PyPlan(d.startLane, d.lanes - d.startLane, d.SweepWindow()), start)
      case Finishes => drv.value.Finished(start)
    ensures dev.faithful ==> !ending.GivesUp?
    ensures ReadFrom(caps, CapsOf(old(dev.regs), side, DetermineLanes(lane).1))
    ensures dev.faithful || NoneFailed(old(dev.trace), start) ==>
      caps == CapsOf(old(dev.regs), side, DetermineLanes(lane).1)
    ensures ending.Exits? <==>
      voltage.Some? && (caps.voltageSteps == None
                        || voltage.value < -caps.voltageSteps.value || voltage.value > caps.voltageSteps.value)
    ensures ending.RaisesInSweep? <==> !ending.Exits? && (caps.timingSteps == None || caps.voltageSteps == None)
  {
    hide Unvolatile, PyPlan, Driver.Done, Driver.LostWrite;
    drv := None;
    var p;
    p, caps := EomPrepare(dev, side, lane, voltage, target, patience);
    start := dev.trace;
    match p
    case Left => ending := Exits;
    case NoLimits =>
      StartWithoutLimits(dev, side, lane);
      ending := RaisesInSweep;
    case Ready(driver) =>
      drv := Some(driver);
      var gaveUp := driver.EomStart();
      ending := if gaveUp then GivesUp else Finishes;
  }

  /** The C program's options for the same sweep: no timing limits, and both voltage limits equal to
      the single voltage if there is one. */
  function SameOptions(side: Side, lane: Option<nat>, voltage: Option<int>, target: Option<Word32>): UfsEom.Options {
    var given := if voltage.Some? then voltage.value else UfsEom.EOM_TIMING_VOLTAGE_INIT;
    UfsEom.Options(side, lane, target, given, given,
                   UfsEom.EOM_TIMING_VOLTAGE_INIT, UfsEom.EOM_TIMING_VOLTAGE_INIT, false)
  }

  function AskedRange(voltage: Option<int>): UfsEom.Range {
    var o := SameOptions(Local, None, voltage, None);
    UfsEom.Range(o.timingLeft, o.timingRight, o.voltageLow, o.voltageHigh)
  }

  /** The window the C program makes of these options. */
  lemma CWindowIs(regs: map<Register, Word32>, side: Side, lane: nat, voltage: Option<int>)
    requires UfsEom.CanSweep(regs, side, lane, AskedRange(voltage))
    requires PyCanSweep(regs, side, lane, voltage)
    ensures UfsEom.WindowOf(UfsEom.Filled(AskedRange(voltage), UfsEom.LimitsOf(regs, side, lane)))
      == CWindow(voltage, TimingStepsOf(regs, side, lane).value, VoltageStepsOf(regs, side, lane).value)
  {
  }

  /** The C program on a device that does not fail. */
  method RunC(dev: UfsDevice, side: Side, lane: Option<nat>, voltage: Option<int>, target: Option<Word32>,
              names: Option<DeviceNames>, memory: bool, fileOpens: bool)
    returns (mon: UfsEom.Monitor, ret: int)
    requires dev.Valid() && dev.faithful
    requires (lane.Some? ==> lane.value <= 1) && (target.Some? ==> 0 < target.value <= 127)
    modifies dev
    ensures fresh(mon)
    ensures ret == SUCCESS <==>
      && memory && names.Some? && fileOpens
      && UfsEom.CanSweep(old(dev.regs), side, DetermineLanes(lane).1, AskedRange(voltage))
    ensures ret == SUCCESS ==>
      var range := UfsEom.Filled(AskedRange(voltage), UfsEom.LimitsOf(old(dev.regs), side, DetermineLanes(lane).1));
      && mon.dataCnt <= mon.er.Length && range.left <= range.right && range.low <= range.high
      && UfsEom.RecordedFrom(dev.oracle, side, if target.Some? then target.value else 0x5D,
           AllCells(DetermineLanes(lane).1, if lane.Some? then 1 else 2, UfsEom.WindowOf(range)), mon.er[..mon.dataCnt])
  {
    mon := new UfsEom.Monitor(dev, SameOptions(side, lane, voltage, target));
    assert mon.CurrentRange() == AskedRange(voltage);
    hide UfsEom.RecordedFrom, AllCells, UfsEom.LinkReady, UfsEom.LimitsOf, UfsEom.Filled, ReportText, CompleteRun;
    var report;
    ghost var start;
    ret, report, start := mon.Run(names, memory, fileOpens);
  }

  /** The Python program's sweep on a device that does not fail. */
  method RunPy(drv: Driver, ghost regs: map<Register, Word32>, side: Side, lane: Option<nat>, voltage: Option<int>,
               target: Option<Word32>)
    requires drv.dev.faithful && PyCanSweep(regs, side, DetermineLanes(lane).1, voltage)
    requires drv.SetUp(regs, side, lane, voltage, target)
    modifies drv`recorded, drv`reporter, drv.dev
    ensures UfsEom.RecordedFrom(drv.dev.oracle, side, if target.Some? then target.value else 0x5D,
      AllCells(DetermineLanes(lane).1, DetermineLanes(lane).0 - DetermineLanes(lane).1,
               PyWindow(voltage, TimingStepsOf(regs, side, DetermineLanes(lane).1).value,
                        VoltageStepsOf(regs, side, DetermineLanes(lane).1).value)), drv.recorded)
  {
    hide UfsEom.RecordedFrom, AllCells, Driver.SweepWindow, Driver.Done, Driver.LostWrite, PyPlan, LastWrite, Measured;
    ghost var t0 := drv.dev.trace;
    var gaveUp := drv.EomStart();
    drv.SweepRecordsGrid(t0);
  }

  /** Where the link is ready and the four limits can be read, both programs get to their sweep or
      neither does; the single voltage of 255 is always accepted by the C program. */
  lemma SuccessesAgree(regs: map<Register, Word32>, side: Side, lane: nat, voltage: Option<int>)
    requires UfsEom.LinkReady(regs, side, lane) && UfsEom.Readable(UfsEom.LimitsOf(regs, side, lane))
    ensures UfsEom.CanSweep(regs, side, lane, AskedRange(voltage)) <==>
      voltage == Some(UfsEom.EOM_TIMING_VOLTAGE_INIT) || PyCanSweep(regs, side, lane, voltage)
    ensures
      var most := UfsEom.LimitsOf(regs, side, lane).voltageMaxSteps;
      PyCanSweep(regs, side, lane, voltage) <==> (voltage.Some? ==> -most <= voltage.value <= most)
  {
  }

  /** Both programs, asked for the same sweep of one device that does not fail. The C program
      succeeds exactly when the device offers the sweep and it gets memory, names and a file. With a
      link that is ready and limits that can be read it succeeds exactly when the Python program
      gets to its sweep, unless the single voltage is 255; and then they record the same, exactly
      unless the single voltage is 255. */
  method RunBoth(dev: UfsDevice, side: Side, lane: Option<nat>, voltage: Option<int>, target: Option<Word32>,
                 names: Option<DeviceNames>, memory: bool, fileOpens: bool, patience: nat)
    returns (mon: UfsEom.Monitor, ret: int, drv: Option<Driver>)
    requires dev.Valid() && dev.faithful
    requires (lane.Some? ==> lane.value <= 1) && (target.Some? ==> 0 < target.value <= 127)
    modifies dev
    ensures ret == SUCCESS <==>
      && memory && names.Some? && fileOpens
      && UfsEom.CanSweep(old(dev.regs), side, DetermineLanes(lane).1, AskedRange(voltage))
    ensures drv.Some? <==> PyCanSweep(old(dev.regs), side, DetermineLanes(lane).1, voltage)
    ensures
      var first := DetermineLanes(lane).1;
      && memory && names.Some? && fileOpens
      && UfsEom.LinkReady(old(dev.regs), side, first) && UfsEom.Readable(UfsEom.LimitsOf(old(dev.regs), side, first)) ==>
        (ret == SUCCESS <==> voltage == Some(UfsEom.EOM_TIMING_VOLTAGE_INIT) || drv.Some?)
    ensures ret == SUCCESS && drv.Some? ==>
      && mon.dataCnt <= mon.er.Length
      && (mon.er[..mon.dataCnt] == drv.value.recorded <==> voltage != Some(UfsEom.EOM_TIMING_VOLTAGE_INIT))
  {
    ghost var regs, first := dev.regs, DetermineLanes(lane).1;
    hide Unvolatile, Driver.SetUp, UfsEom.Within, UfsEom.LinkReady, UfsEom.Readable, EndsLike, OnlyReads, Raises;
    var prepared, _ := EomPrepare(dev, side, lane, voltage, target, patience);
    drv := if prepared.Ready? then Some(prepared.driver) else None;
    SameDevice(regs, dev.regs, side, first, AskedRange(voltage));
    if UfsEom.LinkReady(regs, side, first) && UfsEom.Readable(UfsEom.LimitsOf(regs, side, first)) {
      SuccessesAgree(regs, side, first, voltage);
    }
    hide UfsEom.RecordedFrom, AllCells, UfsEom.CanSweep, UfsEom.LimitsOf, UfsEom.Filled, TimingStepsOf, VoltageStepsOf,
         PyWindow, DetermineVoltage, AskedRange, PyCanSweep, UfsEom.WindowOf;
    mon, ret := RunC(dev, side, lane, voltage, target, names, memory, fileOpens);
    if prepared.NoLimits? {
      StartWithoutLimits(dev, side, lane);
    } else if drv.Some? {
      RunPy(drv.value, regs, side, lane, voltage, target);
      if ret == SUCCESS {
        BothRecord(dev.oracle, regs, side, if target.Some? then target.value else 0x5D, lane, voltage,
                   mon.er[..mon.dataCnt], drv.value.recorded);
      }
    }
  }

  lemma BothRecord(oracle: (Register, Word32, Word32, Word32) -> Counters, regs: map<Register, Word32>, side: Side,
                   target: Word32, lane: Option<nat>, voltage: Option<int>, c: seq<EomResult>, py: seq<EomResult>)
    requires (lane.Some? ==> lane.value <= 1) && PyCanSweep(regs, side, DetermineLanes(lane).1, voltage)
    requires UfsEom.CanSweep(regs, side, DetermineLanes(lane).1, AskedRange(voltage))
    requires
      var range := UfsEom.Filled(AskedRange(voltage), UfsEom.LimitsOf(regs, side, DetermineLanes(lane).1));
      && range.left <= range.right && range.low <= range.high
      && UfsEom.RecordedFrom(oracle, side, target,
           AllCells(DetermineLanes(lane).1, if lane.Some? then 1 else 2, UfsEom.WindowOf(range)), c)
    requires UfsEom.RecordedFrom(oracle, side, target,
      AllCells(DetermineLanes(lane).1, DetermineLanes(lane).0 - DetermineLanes(lane).1,
               PyWindow(voltage, TimingStepsOf(regs, side, DetermineLanes(lane).1).value,
                        VoltageStepsOf(regs, side, DetermineLanes(lane).1).value)), py)
    ensures c == py <==> voltage != Some(UfsEom.EOM_TIMING_VOLTAGE_INIT)
  {
    var first := DetermineLanes(lane).1;
    CWindowIs(regs, side, first, voltage);
    hide UfsEom.RecordedFrom, AllCells, UfsEom.CanSweep, UfsEom.LimitsOf, UfsEom.Filled, TimingStepsOf, VoltageStepsOf,
         CWindow, PyWindow, DetermineVoltage, AskedRange, UfsEom.WindowOf;
    DriversAgree(oracle, side, target, lane, voltage, TimingStepsOf(regs, side, first).value,
                 VoltageStepsOf(regs, side, first).value, c, py);
  }

  /** Reading the limits changes nothing about what the device offers. */
  lemma SameDevice(before: map<Register, Word32>, after: map<Register, Word32>, side: Side, lane: nat, asked: UfsEom.Range)
    requires Unvolatile(before, after)
    ensures UfsEom.CanSweep(after, side, lane, asked) == UfsEom.CanSweep(before, side, lane, asked)
    ensures UfsEom.LimitsOf(after, side, lane) == UfsEom.LimitsOf(before, side, lane)
  {
  }

  lemma MoreVolts(n: nat, volts: nat)
    requires n > 0 && volts > 1
    ensures n * volts > n
  {
  }
}
