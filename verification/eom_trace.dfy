/** What the eye monitor is told and what it answers, as a sequence of UIC commands. */
module EomTrace {
  import opened Words
  import opened Wrappers
  import opened Uic
  import opened Grid

  // ----- Step registers: sign in bit 6, magnitude in bits 5..0 -----

  const EOM_DIRECTION: nat := 0x40
  const EOM_STEPS: nat := 0x40

  function Magnitude(steps: int): nat {
    if steps < 0 then -steps else steps
  }

  function EncodeSteps(steps: int): Word32 {
    (if steps < 0 then EOM_DIRECTION else 0) + Magnitude(steps) % EOM_STEPS
  }

  /** How the monitor reads the step register. */
  function DecodeSteps(code: Word32): int {
    if code / EOM_DIRECTION % 2 == 1 then -(code % EOM_STEPS) else code % EOM_STEPS
  }

  /** The register holds the step asked for exactly when the step fits the 6-bit field. */
  lemma DecodesWhenFits(steps: int)
    ensures DecodeSteps(EncodeSteps(steps)) == steps <==> -63 <= steps <= 63
  {
  }

  /** The second encoding of zero is written only for a negative multiple of 64. */
  lemma NegativeZeroOnlyByOverflow(steps: int)
    ensures EncodeSteps(steps) == 0x40 <==> steps < 0 && Magnitude(steps) % 64 == 0
  {
  }

  // ----- One measured point -----

  datatype EomResult = EomResult(lane: nat, timing: int, volt: int, errorCnt: int)

  function CellOf(r: EomResult): Cell {
    Cell(r.lane, r.timing, r.volt)
  }

  function Wrote(reg: Register, value: Word32): Event {
    Event(true, reg, value, true)
  }

  function ReadEvent(reg: Register, value: Word32): Event {
    Event(false, reg, value, true)
  }

  /** The writes that set up one measurement, in their order. The last one starts it. */
  function ConfigWrites(side: Side, lane: nat, timingCode: Word32, voltCode: Word32, target: Word32): seq<Event> {
    [Wrote(RxRegister(side, lane, RX_EYEMON_ENABLE), 1),
     Wrote(RxRegister(side, lane, RX_EYEMON_TIMING_STEPS), timingCode),
     Wrote(RxRegister(side, lane, RX_EYEMON_VOLTAGE_STEPS), voltCode),
     Wrote(RxRegister(side, lane, RX_EYEMON_TARGET_TEST_COUNT), target),
     Wrote(Register(Local, SelectTx(0), PA_TXHSADAPTTYPE), PA_NO_ADAPT),
     Wrote(Register(Local, SelectTx(0), PA_PWRMODE), 0x11)]
  }

  /** The counts are conclusive to the driver. */
  predicate Concluded(c: Counters, target: nat) {
    c.tested >= target || c.errors >= EOM_PHY_ERROR_COUNT_THRESHOLD
  }

  /** The drivers go on polling exactly while the counts are not ones a monitor stops with. */
  lemma StopsAreConclusive(c: Counters, target: nat)
    ensures MayStop(c, target) <==> Concluded(c, target)
  {
  }

  /** The three reads that end a measurement: Start is clear, the counts are conclusive, and the
      error count is the one recorded. */
  predicate Concludes(side: Side, target: Word32, lane: nat, errorCnt: int, tail: seq<Event>) {
    && |tail| == 3
    && tail[0] == ReadEvent(RxRegister(side, lane, RX_EYEMON_START), tail[0].value)
    && tail[1] == ReadEvent(RxRegister(side, lane, RX_EYEMON_TESTED_COUNT), tail[1].value)
    && tail[2] == ReadEvent(RxRegister(side, lane, RX_EYEMON_ERROR_COUNT), tail[2].value)
    && tail[0].value % 2 == 0
    && tail[2].value == errorCnt
    && Concluded(Counters(tail[1].value, tail[2].value), target)
  }

  /** The C program takes the counts for ints, and goes on only with those that are not negative. */
  predicate CountsFit(tail: seq<Event>) {
    |tail| == 3 && tail[1].value < 0x8000_0000 && tail[2].value < 0x8000_0000
  }

  /** The commands that measure the point r: the six writes, then reads only, the last three of
      which conclude the measurement. */
  predicate PointTrace(side: Side, target: Word32, r: EomResult, seg: seq<Event>) {
    && |seg| >= 9
    && seg[..6] == ConfigWrites(side, r.lane, EncodeSteps(r.timing), EncodeSteps(r.volt), target)
    && (forall i | 6 <= i < |seg| :: !seg[i].isSet)
    && Concludes(side, target, r.lane, r.errorCnt, seg[|seg| - 3..])
  }

  lemma PointTraceIntro(side: Side, target: Word32, r: EomResult, before: seq<Event>, tr: seq<Event>)
    requires before + ConfigWrites(side, r.lane, EncodeSteps(r.timing), EncodeSteps(r.volt), target) <= tr
    requires |tr| >= |before| + 9
    requires forall i | |before| + 6 <= i < |tr| :: !tr[i].isSet
    requires Concludes(side, target, r.lane, r.errorCnt, tr[|tr| - 3..])
    ensures PointTrace(side, target, r, tr[|before|..])
  {
  }

  // ----- A run: points and, around each lane, writes that switch its monitor on or off -----

  datatype Step = Scanned(r: EomResult) | Disabled(lane: nat) | Enabled(lane: nat)
  datatype Action = Scan(c: Cell) | Disable(lane: nat) | Enable(lane: nat)

  predicate StepTrace(side: Side, target: Word32, s: Step, seg: seq<Event>) {
    match s
    case Scanned(r) => PointTrace(side, target, r, seg)
    case Disabled(lane) => seg == [Wrote(RxRegister(side, lane, RX_EYEMON_ENABLE), 0)]
    case Enabled(lane) => seg == [Wrote(RxRegister(side, lane, RX_EYEMON_ENABLE), 1)]
  }

  function Flatten(segs: seq<seq<Event>>): seq<Event> {
    if segs == [] then [] else Flatten(segs[..|segs| - 1]) + segs[|segs| - 1]
  }

  /** The i-th segment holds the commands of the i-th step. */
  ghost predicate Performs(side: Side, target: Word32, steps: seq<Step>, segs: seq<seq<Event>>) {
    && |segs| == |steps|
    && forall i | 0 <= i < |steps| :: StepTrace(side, target, steps[i], segs[i])
  }

  /** The trace tr consists of the commands of the given steps and of nothing else. */
  ghost predicate RunTrace(side: Side, target: Word32, steps: seq<Step>, tr: seq<Event>) {
    exists segs :: Performs(side, target, steps, segs) && Flatten(segs) == tr
  }

  lemma RunTraceStart(side: Side, target: Word32)
    ensures RunTrace(side, target, [], [])
  {
    assert Performs(side, target, [], []) && Flatten([]) == [];
  }

  lemma RunTraceGrows(side: Side, target: Word32, steps: seq<Step>, tr: seq<Event>, s: Step, seg: seq<Event>)
    requires RunTrace(side, target, steps, tr) && StepTrace(side, target, s, seg)
    ensures RunTrace(side, target, steps + [s], tr + seg)
  {
    var segs :| Performs(side, target, steps, segs) && Flatten(segs) == tr;
    assert (segs + [seg])[..|segs|] == segs;
    assert Performs(side, target, steps + [s], segs + [seg]);
  }

  /** The commands from t0 to `before` were a run; the commands since then are one more step. */
  lemma RunGrows(side: Side, target: Word32, steps: seq<Step>, t0: seq<Event>, before: seq<Event>,
                 s: Step, after: seq<Event>)
    requires t0 <= before <= after
    requires RunTrace(side, target, steps, before[|t0|..]) && StepTrace(side, target, s, after[|before|..])
    ensures RunTrace(side, target, steps + [s], after[|t0|..])
    ensures Results(steps + [s]) == if s.Scanned? then Results(steps) + [s.r] else Results(steps)
    ensures Actions(steps + [s]) == Actions(steps) + [ActionOf(s)]
  {
    RunTraceGrows(side, target, steps, before[|t0|..], s, after[|before|..]);
    assert after[|t0|..] == before[|t0|..] + after[|before|..];
    assert (steps + [s])[..|steps|] == steps;
  }

  /** The results that a run records. */
  function Results(steps: seq<Step>): seq<EomResult> {
    if steps == [] then []
    else
      var before := Results(steps[..|steps| - 1]);
      match steps[|steps| - 1]
      case Scanned(r) => before + [r]
      case _ => before
  }

  function ActionOf(s: Step): Action {
    match s
    case Scanned(r) => Scan(CellOf(r))
    case Disabled(lane) => Disable(lane)
    case Enabled(lane) => Enable(lane)
  }

  function Actions(steps: seq<Step>): (actions: seq<Action>)
    ensures |actions| == |steps|
  {
    if steps == [] then [] else Actions(steps[..|steps| - 1]) + [ActionOf(steps[|steps| - 1])]
  }

  function CellsOf(actions: seq<Action>): seq<Cell> {
    if actions == [] then []
    else
      var before := CellsOf(actions[..|actions| - 1]);
      match actions[|actions| - 1]
      case Scan(c) => before + [c]
      case _ => before
  }

  function CellSeq(results: seq<EomResult>): (cells: seq<Cell>)
    ensures |cells| == |results|
    ensures forall i | 0 <= i < |results| :: cells[i] == CellOf(results[i])
  {
    if results == [] then [] else CellSeq(results[..|results| - 1]) + [CellOf(results[|results| - 1])]
  }

  function Scans(cells: seq<Cell>): seq<Action> {
    if cells == [] then [] else Scans(cells[..|cells| - 1]) + [Scan(cells[|cells| - 1])]
  }

  /** What a complete sweep does: every cell of a lane, then that lane's disable. */
  function SweepPlan(first: nat, lanes: nat, w: Window): seq<Action> {
    if lanes == 0 then []
    else SweepPlan(first, lanes - 1, w) + Scans(LaneCells(first + lanes - 1, w)) + [Disable(first + lanes - 1)]
  }

  lemma {:induction false} ScansAppend(a: seq<Cell>, b: seq<Cell>)
    ensures Scans(a + b) == Scans(a) + Scans(b)
    decreases |b|
  {
    if b == [] {
      assert a + b == a;
    } else {
      var n := |b| - 1;
      ScansAppend(a, b[..n]);
      assert (a + b)[..|a| + n] == a + b[..n];
    }
  }

  lemma {:induction false} CellsOfAppend(a: seq<Action>, b: seq<Action>)
    ensures CellsOf(a + b) == CellsOf(a) + CellsOf(b)
    decreases |b|
  {
    if b == [] {
      assert a + b == a;
    } else {
      var n := |b| - 1;
      CellsOfAppend(a, b[..n]);
      assert (a + b)[..|a| + n] == a + b[..n];
    }
  }

  lemma {:induction false} CellsOfScans(cells: seq<Cell>)
    ensures CellsOf(Scans(cells)) == cells
  {
    if cells != [] {
      CellsOfScans(cells[..|cells| - 1]);
      CellsOfAppend(Scans(cells[..|cells| - 1]), [Scan(cells[|cells| - 1])]);
    }
  }

  lemma {:induction false} CellsOfPlan(first: nat, lanes: nat, w: Window)
    ensures CellsOf(SweepPlan(first, lanes, w)) == AllCells(first, lanes, w)
  {
    if lanes > 0 {
      var cells := LaneCells(first + lanes - 1, w);
      var before := SweepPlan(first, lanes - 1, w);
      CellsOfPlan(first, lanes - 1, w);
      CellsOfScans(cells);
      CellsOfAppend(before, Scans(cells));
      CellsOfAppend(before + Scans(cells), [Disable(first + lanes - 1)]);
    }
  }

  lemma {:induction false} CellsOfActions(steps: seq<Step>)
    ensures CellsOf(Actions(steps)) == CellSeq(Results(steps))
  {
    if steps != [] {
      var n := |steps| - 1;
      CellsOfActions(steps[..n]);
      CellsOfAppend(Actions(steps[..n]), [ActionOf(steps[n])]);
      var before := Results(steps[..n]);
      if steps[n].Scanned? {
        assert (before + [steps[n].r])[..|before|] == before;
      }
    }
  }

  // ----- What a run proves about the points it recorded -----

  /** Somewhere in tr stands an uninterrupted measurement of r. */
  ghost predicate Measured(side: Side, target: Word32, r: EomResult, tr: seq<Event>) {
    exists a, b :: MeasuredAt(side, target, r, tr, a, b)
  }

  ghost predicate MeasuredAt(side: Side, target: Word32, r: EomResult, tr: seq<Event>, a: int, b: int) {
    0 <= a <= b <= |tr| && PointTrace(side, target, r, tr[a..b])
  }

  lemma MeasuredGrows(side: Side, target: Word32, r: EomResult, tr: seq<Event>, more: seq<Event>)
    requires Measured(side, target, r, tr)
    ensures Measured(side, target, r, tr + more)
    ensures Measured(side, target, r, more + tr)
  {
    var a, b :| MeasuredAt(side, target, r, tr, a, b);
    assert (tr + more)[a..b] == tr[a..b];
    assert MeasuredAt(side, target, r, tr + more, a, b);
    assert (more + tr)[|more| + a..|more| + b] == tr[a..b];
    assert MeasuredAt(side, target, r, more + tr, |more| + a, |more| + b);
  }

  lemma {:induction false} SegmentStands(segs: seq<seq<Event>>, i: nat) returns (a: nat)
    requires i < |segs|
    ensures a + |segs[i]| <= |Flatten(segs)| && Flatten(segs)[a..a + |segs[i]|] == segs[i]
  {
    var n := |segs| - 1;
    if i == n {
      a := |Flatten(segs[..n])|;
    } else {
      a := SegmentStands(segs[..n], i);
      var tr := Flatten(segs[..n]);
      assert (tr + segs[n])[a..a + |segs[i]|] == tr[a..a + |segs[i]|];
    }
  }

  lemma {:induction false} ResultFromStep(steps: seq<Step>, r: EomResult)
    requires r in Results(steps)
    ensures Scanned(r) in steps
  {
    var n := |steps| - 1;
    if steps[n] != Scanned(r) {
      ResultFromStep(steps[..n], r);
    }
  }

  /** Every recorded result was measured. */
  lemma RunMeasures(side: Side, target: Word32, steps: seq<Step>, tr: seq<Event>, r: EomResult)
    requires RunTrace(side, target, steps, tr) && r in Results(steps)
    ensures Measured(side, target, r, tr)
  {
    var segs :| Performs(side, target, steps, segs) && Flatten(segs) == tr;
    ResultFromStep(steps, r);
    var i :| 0 <= i < |steps| && steps[i] == Scanned(r);
    var a := SegmentStands(segs, i);
    assert StepTrace(side, target, steps[i], segs[i]);
    assert MeasuredAt(side, target, r, tr, a, a + |segs[i]|);
  }

  /** Commands that come after a run change nothing about what it measured. */
  lemma StillMeasured(side: Side, target: Word32, steps: seq<Step>, t0: seq<Event>, before: seq<Event>, after: seq<Event>)
    requires t0 <= before <= after && RunTrace(side, target, steps, before[|t0|..])
    ensures forall r | r in Results(steps) :: Measured(side, target, r, after[|t0|..])
  {
    assert after[|t0|..] == before[|t0|..] + after[|before|..];
    forall r | r in Results(steps)
      ensures Measured(side, target, r, after[|t0|..])
    {
      RunMeasures(side, target, steps, before[|t0|..], r);
      MeasuredGrows(side, target, r, before[|t0|..], after[|before|..]);
    }
  }

  // ----- What the registers hold -----

  /** The value last written to a register. */
  function LastWrite(tr: seq<Event>, reg: Register): Option<Word32> {
    if tr == [] then None
    else
      var e := tr[|tr| - 1];
      if e.isSet && e.ok && e.reg == reg then Some(e.value) else LastWrite(tr[..|tr| - 1], reg)
  }

  lemma {:induction false} LastWriteAppend(a: seq<Event>, b: seq<Event>, reg: Register)
    ensures LastWrite(a + b, reg) == if LastWrite(b, reg).Some? then LastWrite(b, reg) else LastWrite(a, reg)
    decreases |b|
  {
    if b == [] {
      assert a + b == a;
    } else {
      LastWriteAppend(a, b[..|b| - 1], reg);
      assert (a + b)[..|a| + |b| - 1] == a + b[..|b| - 1];
    }
  }

  lemma {:induction false} ReadsWriteNothing(tr: seq<Event>, reg: Register)
    requires forall i | 0 <= i < |tr| :: !tr[i].isSet
    ensures LastWrite(tr, reg) == None
  {
    if tr != [] {
      ReadsWriteNothing(tr[..|tr| - 1], reg);
    }
  }

  /** What the six configuration writes leave in a register. */
  function Configured(side: Side, r: EomResult, target: Word32, reg: Register): Option<Word32> {
    if reg == RxRegister(side, r.lane, RX_EYEMON_ENABLE) then Some(1)
    else if reg == RxRegister(side, r.lane, RX_EYEMON_TIMING_STEPS) then Some(EncodeSteps(r.timing))
    else if reg == RxRegister(side, r.lane, RX_EYEMON_VOLTAGE_STEPS) then Some(EncodeSteps(r.volt))
    else if reg == RxRegister(side, r.lane, RX_EYEMON_TARGET_TEST_COUNT) then Some(target)
    else if reg == Register(Local, SelectTx(0), PA_TXHSADAPTTYPE) then Some(PA_NO_ADAPT)
    else if reg == Register(Local, SelectTx(0), PA_PWRMODE) then Some(0x11)
    else None
  }

  lemma SixWrites(w: seq<Event>, reg: Register)
    requires |w| == 6 && forall i | 0 <= i < 6 :: w[i].isSet && w[i].ok
    ensures LastWrite(w, reg) ==
      if w[5].reg == reg then Some(w[5].value)
      else if w[4].reg == reg then Some(w[4].value)
      else if w[3].reg == reg then Some(w[3].value)
      else if w[2].reg == reg then Some(w[2].value)
      else if w[1].reg == reg then Some(w[1].value)
      else if w[0].reg == reg then Some(w[0].value)
      else None
  {
    assert w[..6] == w;
    assert forall n | 0 <= n < 6 :: w[..n + 1][..n] == w[..n];
    assert LastWrite(w[..0], reg) == None;
    assert LastWrite(w[..1], reg) == if w[0].reg == reg then Some(w[0].value) else None;
    assert LastWrite(w[..2], reg) == if w[1].reg == reg then Some(w[1].value) else LastWrite(w[..1], reg);
    assert LastWrite(w[..3], reg) == if w[2].reg == reg then Some(w[2].value) else LastWrite(w[..2], reg);
    assert LastWrite(w[..4], reg) == if w[3].reg == reg then Some(w[3].value) else LastWrite(w[..3], reg);
    assert LastWrite(w[..5], reg) == if w[4].reg == reg then Some(w[4].value) else LastWrite(w[..4], reg);
  }

  /** After a point is measured every register holds its configured value, because the polling
      writes nothing. */
  lemma PointWrites(side: Side, target: Word32, r: EomResult, seg: seq<Event>, reg: Register)
    requires PointTrace(side, target, r, seg)
    ensures LastWrite(seg, reg) == Configured(side, r, target, reg)
  {
    assert seg == seg[..6] + seg[6..];
    ReadsWriteNothing(seg[6..], reg);
    LastWriteAppend(seg[..6], seg[6..], reg);
    SixWrites(seg[..6], reg);
  }

  /** A measurement that ran to the full test count with the monitor set to the very step
      (timing, volt) and counted so many errors: read off the commands alone. */
  ghost predicate FullMeasurement(side: Side, lane: nat, timing: int, volt: int, target: Word32, errors: Word32,
                                  seg: seq<Event>) {
    && LastWrite(seg, RxRegister(side, lane, RX_EYEMON_ENABLE)) == Some(1)
    && (var t := LastWrite(seg, RxRegister(side, lane, RX_EYEMON_TIMING_STEPS));
        t.Some? && DecodeSteps(t.value) == timing)
    && (var v := LastWrite(seg, RxRegister(side, lane, RX_EYEMON_VOLTAGE_STEPS));
        v.Some? && DecodeSteps(v.value) == volt)
    && LastWrite(seg, RxRegister(side, lane, RX_EYEMON_TARGET_TEST_COUNT)) == Some(target)
    && LastWrite(seg, Register(Local, SelectTx(0), PA_TXHSADAPTTYPE)) == Some(PA_NO_ADAPT)
    && |seg| >= 9 && seg[5] == Wrote(Register(Local, SelectTx(0), PA_PWRMODE), 0x11)
    && (forall i | 6 <= i < |seg| :: !seg[i].isSet)
    && (var n := |seg|;
        && seg[n - 3] == ReadEvent(RxRegister(side, lane, RX_EYEMON_START), seg[n - 3].value)
        && seg[n - 3].value % 2 == 0
        && seg[n - 2] == ReadEvent(RxRegister(side, lane, RX_EYEMON_TESTED_COUNT), seg[n - 2].value)
        && seg[n - 2].value >= target
        && seg[n - 1] == ReadEvent(RxRegister(side, lane, RX_EYEMON_ERROR_COUNT), errors))
  }

  ghost predicate MeasuredFully(side: Side, lane: nat, timing: int, volt: int, target: Word32, errors: Word32,
                                tr: seq<Event>) {
    exists a, b :: FullyAt(side, lane, timing, volt, target, errors, tr, a, b)
  }

  ghost predicate FullyAt(side: Side, lane: nat, timing: int, volt: int, target: Word32, errors: Word32,
                          tr: seq<Event>, a: int, b: int) {
    0 <= a <= b <= |tr| && FullMeasurement(side, lane, timing, volt, target, errors, tr[a..b])
  }

  /** A measurement of the whole test that counted no error. */
  ghost predicate MeasuredClean(side: Side, lane: nat, timing: int, volt: int, target: Word32, tr: seq<Event>) {
    MeasuredFully(side, lane, timing, volt, target, 0, tr)
  }

  /** A recorded point holds what it says: for steps that fit the register the monitor was set to
      exactly this point, and fewer than 60 errors were counted over the whole test. */
  lemma FewErrorsOverFullTest(side: Side, target: Word32, r: EomResult, tr: seq<Event>)
    requires Measured(side, target, r, tr)
    requires -63 <= r.timing <= 63 && -63 <= r.volt <= 63 && r.errorCnt < EOM_PHY_ERROR_COUNT_THRESHOLD
    ensures r.errorCnt >= 0 && MeasuredFully(side, r.lane, r.timing, r.volt, target, r.errorCnt, tr)
  {
    var a, b :| MeasuredAt(side, target, r, tr, a, b);
    var seg := tr[a..b];
    PointWrites(side, target, r, seg, RxRegister(side, r.lane, RX_EYEMON_ENABLE));
    PointWrites(side, target, r, seg, RxRegister(side, r.lane, RX_EYEMON_TIMING_STEPS));
    PointWrites(side, target, r, seg, RxRegister(side, r.lane, RX_EYEMON_VOLTAGE_STEPS));
    PointWrites(side, target, r, seg, RxRegister(side, r.lane, RX_EYEMON_TARGET_TEST_COUNT));
    PointWrites(side, target, r, seg, Register(Local, SelectTx(0), PA_TXHSADAPTTYPE));
    DecodesWhenFits(r.timing);
    DecodesWhenFits(r.volt);
    assert seg[5] == seg[..6][5];
    var tail := seg[|seg| - 3..];
    assert tail[0] == seg[|seg| - 3] && tail[1] == seg[|seg| - 2] && tail[2] == seg[|seg| - 1];
    assert FullyAt(side, r.lane, r.timing, r.volt, target, r.errorCnt, tr, a, b);
  }

  // ----- The enable register at the end of a run -----

  /** What a run leaves in a lane's enable register. */
  function LastEnable(actions: seq<Action>, lane: nat): Option<Word32> {
    if actions == [] then None
    else match actions[|actions| - 1]
      case Scan(c) => if c.lane == lane then Some(1) else LastEnable(actions[..|actions| - 1], lane)
      case Disable(l) => if l == lane then Some(0) else LastEnable(actions[..|actions| - 1], lane)
      case Enable(l) => if l == lane then Some(1) else LastEnable(actions[..|actions| - 1], lane)
  }

  lemma EnableAfterRun(side: Side, target: Word32, steps: seq<Step>, tr: seq<Event>, lane: nat)
    requires RunTrace(side, target, steps, tr)
    ensures LastWrite(tr, RxRegister(side, lane, RX_EYEMON_ENABLE)) == LastEnable(Actions(steps), lane)
  {
    var segs :| Performs(side, target, steps, segs) && Flatten(segs) == tr;
    var reg := RxRegister(side, lane, RX_EYEMON_ENABLE);
    forall i | 0 <= i < |steps|
      ensures LastWrite(segs[i], reg) == LastEnable([ActionOf(steps[i])], lane)
    {
      EnableAfterStep(side, target, steps[i], segs[i], lane);
    }
    LastWriteOfSegments(steps, segs, reg, lane);
  }

  lemma {:induction false} LastWriteOfSegments(steps: seq<Step>, segs: seq<seq<Event>>, reg: Register, lane: nat)
    requires |segs| == |steps|
    requires forall i | 0 <= i < |steps| :: LastWrite(segs[i], reg) == LastEnable([ActionOf(steps[i])], lane)
    ensures LastWrite(Flatten(segs), reg) == LastEnable(Actions(steps), lane)
  {
    if steps != [] {
      var n := |steps| - 1;
      LastWriteOfSegments(steps[..n], segs[..n], reg, lane);
      LastWriteAppend(Flatten(segs[..n]), segs[n], reg);
      LastEnableGrows(Actions(steps[..n]), ActionOf(steps[n]), lane);
    }
  }

  lemma EnableAfterStep(side: Side, target: Word32, s: Step, seg: seq<Event>, lane: nat)
    requires StepTrace(side, target, s, seg)
    ensures LastWrite(seg, RxRegister(side, lane, RX_EYEMON_ENABLE)) == LastEnable([ActionOf(s)], lane)
  {
    var reg := RxRegister(side, lane, RX_EYEMON_ENABLE);
    match s
    case Scanned(r) =>
      PointWrites(side, target, r, seg, reg);
    case _ =>
      assert seg[..0] == [];
  }

  lemma LastEnableGrows(actions: seq<Action>, a: Action, lane: nat)
    ensures LastEnable(actions + [a], lane) ==
      if LastEnable([a], lane).Some? then LastEnable([a], lane) else LastEnable(actions, lane)
  {
  }

  lemma {:induction false} OtherLanesKeepEnable(a: seq<Action>, cells: seq<Cell>, lane: nat)
    requires forall c | c in cells :: c.lane != lane
    ensures LastEnable(a + Scans(cells), lane) == LastEnable(a, lane)
    decreases |cells|
  {
    if cells == [] {
      assert a + Scans(cells) == a;
    } else {
      var n := |cells| - 1;
      OtherLanesKeepEnable(a, cells[..n], lane);
      assert a + Scans(cells) == (a + Scans(cells[..n])) + [Scan(cells[n])];
    }
  }

  lemma {:induction false} LaneCellsInLane(lane: nat, w: Window, timings: nat)
    ensures forall c | c in Columns(lane, w, timings) :: c.lane == lane
  {
    if timings > 0 {
      LaneCellsInLane(lane, w, timings - 1);
      ColumnAt(lane, w.left + timings - 1, w.low, w.volts);
    }
  }

  lemma {:induction false} PlanEndsDisabled(first: nat, lanes: nat, w: Window, lane: nat)
    requires first <= lane < first + lanes
    ensures LastEnable(SweepPlan(first, lanes, w), lane) == Some(0)
  {
    var l := first + lanes - 1;
    var before := SweepPlan(first, lanes - 1, w);
    var all := before + Scans(LaneCells(l, w));
    assert (all + [Disable(l)])[..|all|] == all;
    if lane < l {
      PlanEndsDisabled(first, lanes - 1, w, lane);
      LaneCellsInLane(l, w, w.timings);
      OtherLanesKeepEnable(before, LaneCells(l, w), lane);
    }
  }

  /** A complete run leaves the monitor of every scanned lane switched off. */
  lemma CompleteRunDisables(side: Side, target: Word32, steps: seq<Step>, tr: seq<Event>,
                            first: nat, lanes: nat, w: Window)
    requires RunTrace(side, target, steps, tr) && Actions(steps) == SweepPlan(first, lanes, w)
    ensures forall lane | first <= lane < first + lanes ::
      LastWrite(tr, RxRegister(side, lane, RX_EYEMON_ENABLE)) == Some(0)
  {
    forall lane: nat | first <= lane < first + lanes
      ensures LastWrite(tr, RxRegister(side, lane, RX_EYEMON_ENABLE)) == Some(0)
    {
      EnableAfterRun(side, target, steps, tr, lane);
      PlanEndsDisabled(first, lanes, w, lane);
    }
  }

  // ----- A sweep under way -----

  /** The actions of a sweep that is in lane first + l, after t columns and v cells of the next. */
  function PlanSoFar(first: nat, w: Window, l: nat, t: nat, v: nat): seq<Action> {
    SweepPlan(first, l, w) + Scans(Columns(first + l, w, t) + Column(first + l, w.left + t, w.low, v))
  }

  lemma PlanNextCell(first: nat, w: Window, l: nat, t: nat, v: nat)
    ensures PlanSoFar(first, w, l, t, v + 1) ==
      PlanSoFar(first, w, l, t, v) + [Scan(Cell(first + l, w.left + t, w.low + v))]
  {
    var lane := first + l;
    var cells := Columns(lane, w, t) + Column(lane, w.left + t, w.low, v);
    var c := Cell(lane, w.left + t, w.low + v);
    assert Columns(lane, w, t) + Column(lane, w.left + t, w.low, v + 1) == cells + [c];
    assert (cells + [c])[..|cells|] == cells;
  }

  lemma PlanNextColumn(first: nat, w: Window, l: nat, t: nat)
    ensures PlanSoFar(first, w, l, t, w.volts) == PlanSoFar(first, w, l, t + 1, 0)
  {
    var lane := first + l;
    NextColumn(lane, w, t);
    assert Column(lane, w.left + t + 1, w.low, 0) == [];
    hide Columns, Column, SweepPlan, Scans;
    assert Columns(lane, w, t + 1) + [] == Columns(lane, w, t + 1);
  }

  lemma PlanNextLane(first: nat, w: Window, l: nat)
    ensures PlanSoFar(first, w, l, w.timings, 0) + [Disable(first + l)] == PlanSoFar(first, w, l + 1, 0, 0)
    ensures PlanSoFar(first, w, l, 0, 0) == SweepPlan(first, l, w)
  {
    var lane := first + l;
    assert Columns(lane, w, w.timings) + Column(lane, w.left + w.timings, w.low, 0) == LaneCells(lane, w);
    assert Columns(lane + 1, w, 0) + Column(lane + 1, w.left, w.low, 0) == [];
  }

  lemma CellsOfPlanSoFar(first: nat, w: Window, l: nat, t: nat, v: nat)
    ensures CellsOf(PlanSoFar(first, w, l, t, v)) == Progress(first, w, l, t, v)
  {
    var cells := Columns(first + l, w, t) + Column(first + l, w.left + t, w.low, v);
    CellsOfPlan(first, l, w);
    CellsOfScans(cells);
    CellsOfAppend(SweepPlan(first, l, w), Scans(cells));
  }

  /** An unfinished sweep has recorded a proper prefix of the grid, so there is room for the next
      result. */
  lemma RoomForNext(steps: seq<Step>, first: nat, lanes: nat, w: Window, l: nat, t: nat, v: nat)
    requires Actions(steps) == PlanSoFar(first, w, l, t, v)
    requires l < lanes && t < w.timings && v < w.volts
    ensures CellSeq(Results(steps)) <= AllCells(first, lanes, w)
    ensures |Results(steps)| < |AllCells(first, lanes, w)|
    ensures PlanSoFar(first, w, l, t, v + 1) == Actions(steps) + [Scan(Cell(first + l, w.left + t, w.low + v))]
  {
    PlanNextCell(first, w, l, t, v);
    CellsOfActions(steps);
    CellsOfPlanSoFar(first, w, l, t, v);
    ProgressIsPrefix(first, w, lanes, l, t, v);
  }

  /** Likewise when a lane is complete but not yet disabled. */
  lemma LaneDone(steps: seq<Step>, first: nat, lanes: nat, w: Window, l: nat)
    requires Actions(steps) == PlanSoFar(first, w, l, w.timings, 0) && l < lanes
    ensures CellSeq(Results(steps)) <= AllCells(first, lanes, w)
    ensures PlanSoFar(first, w, l + 1, 0, 0) == Actions(steps) + [Disable(first + l)]
  {
    hide CellsOf, CellSeq, Progress, PlanSoFar, AllCells, Results, Actions;
    PlanNextLane(first, w, l);
    CellsOfActions(steps);
    CellsOfPlanSoFar(first, w, l, w.timings, 0);
    AllCellsPrefix(first, w, l + 1, lanes);
    LaneComplete(first, w, l);
  }

  lemma LaneComplete(first: nat, w: Window, l: nat)
    ensures Progress(first, w, l, w.timings, 0) == AllCells(first, l + 1, w)
  {
  }

  /** A whole sweep: the trace consists of the measurements of all cells in sweep order, each
      lane followed by its disable write, and `results` is what they recorded. */
  ghost predicate CompleteRun(side: Side, target: Word32, first: nat, lanes: nat, w: Window,
                              results: seq<EomResult>, tr: seq<Event>) {
    exists steps ::
      && RunTrace(side, target, steps, tr)
      && Results(steps) == results
      && Actions(steps) == SweepPlan(first, lanes, w)
  }

  lemma CompleteRunRecordsGrid(side: Side, target: Word32, first: nat, lanes: nat, w: Window,
                               results: seq<EomResult>, tr: seq<Event>)
    requires CompleteRun(side, target, first, lanes, w, results, tr)
    ensures CellSeq(results) == AllCells(first, lanes, w)
    ensures forall r | r in results :: Measured(side, target, r, tr)
    ensures forall lane | first <= lane < first + lanes ::
      LastWrite(tr, RxRegister(side, lane, RX_EYEMON_ENABLE)) == Some(0)
  {
    var steps :| RunTrace(side, target, steps, tr) && Results(steps) == results
      && Actions(steps) == SweepPlan(first, lanes, w);
    CellsOfActions(steps);
    CellsOfPlan(first, lanes, w);
    forall r | r in results
      ensures Measured(side, target, r, tr)
    {
      RunMeasures(side, target, steps, tr, r);
    }
    CompleteRunDisables(side, target, steps, tr, first, lanes, w);
  }
}
